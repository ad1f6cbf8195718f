/** The manager thread (cpp_impl/src/linkjiru/AnalysisThread.h): draining the host ring through
    the resampler into the model ring, and the tick that snapshots, gates, harvests, kicks,
    latches and sends. Host reads are the untorn ones; what the audio thread, the runner and
    the clock do between steps are parameters. */
module Analysis {
  import opened SharedRing
  import opened PolyphaseFilter
  import opened Resampling

  const RING_CAPACITY := 131072
  const MODEL_RATE := 48000
  const DRAIN_CHUNK := 4096

  // ---- Which host samples are fed.

  /** Host samples [begin, end) that were overwritten before they were read. */
  datatype Range = Range(begin: nat, end: nat)

  /** The losses lie between start and cursor, in order. */
  ghost predicate Between(start: nat, lost: seq<Range>, cursor: nat) {
    if lost == [] then start <= cursor
    else
      var last := lost[|lost| - 1];
      Between(start, lost[..|lost| - 1], last.begin) && last.begin < last.end <= cursor
  }

  /** The log from start to cursor without the lost ranges. */
  ghost function Kept(log: seq<real>, start: nat, lost: seq<Range>, cursor: nat): seq<real>
    requires Between(start, lost, cursor) && cursor <= |log|
  {
    if lost == [] then log[start..cursor]
    else
      var last := lost[|lost| - 1];
      Kept(log, start, lost[..|lost| - 1], last.begin) + log[last.end..cursor]
  }

  function Total(lost: seq<Range>): int {
    if lost == [] then 0
    else
      var last := lost[|lost| - 1];
      Total(lost[..|lost| - 1]) + last.end - last.begin
  }

  /** Nothing else goes missing: kept and lost samples add up to all of them. */
  lemma {:induction false} KeptAndLost(log: seq<real>, start: nat, lost: seq<Range>, cursor: nat)
    requires Between(start, lost, cursor) && cursor <= |log|
    ensures |Kept(log, start, lost, cursor)| + Total(lost) == cursor - start
  {
    if lost != [] {
      KeptAndLost(log, start, lost[..|lost| - 1], lost[|lost| - 1].begin);
    }
  }

  lemma {:induction false} KeptOfLonger(log: seq<real>, more: seq<real>, start: nat, lost: seq<Range>, cursor: nat)
    requires Between(start, lost, cursor) && cursor <= |log|
    ensures Kept(log + more, start, lost, cursor) == Kept(log, start, lost, cursor)
  {
    if lost == [] {
      assert (log + more)[start..cursor] == log[start..cursor];
    } else {
      var last := lost[|lost| - 1];
      KeptOfLonger(log, more, start, lost[..|lost| - 1], last.begin);
      assert (log + more)[last.end..cursor] == log[last.end..cursor];
    }
  }

  /** One read: jump to the oldest live sample if it has gone past the cursor, then take a chunk. */
  function Jumped(lost: seq<Range>, cursor: nat, from: nat): seq<Range> {
    if from == cursor then lost else lost + [Range(cursor, from)]
  }

  /** Where the next read starts and how much it takes. */
  function NextRead(log: seq<real>, capacity: nat, cursor: nat): (nat, nat)
    requires cursor <= |log|
  {
    var from := if |log| > cursor + capacity then |log| - capacity else cursor;
    (from, if |log| - from < DRAIN_CHUNK then |log| - from else DRAIN_CHUNK)
  }

  lemma KeptByRead(log: seq<real>, start: nat, lost: seq<Range>, cursor: nat, from: nat, end: nat)
    requires Between(start, lost, cursor) && cursor <= from <= end <= |log|
    ensures Between(start, Jumped(lost, cursor, from), end)
    ensures Kept(log, start, Jumped(lost, cursor, from), end) == Kept(log, start, lost, cursor) + log[from..end]
  {
    if from > cursor {
      assert (lost + [Range(cursor, from)])[..|lost|] == lost;
    } else if lost == [] {
      assert log[start..end] == log[start..cursor] + log[cursor..end];
    } else {
      var last := lost[|lost| - 1];
      assert log[last.end..end] == log[last.end..cursor] + log[cursor..end];
    }
  }

  // ---- What the resampler makes of it.

  /** At or above half the model rate the final buffer never truncates. */
  predicate Roomy(bypass: bool, hostRate: nat) {
    bypass || 2 * hostRate >= MODEL_RATE
  }

  lemma RoomyAdds(fs: seq<Filter>, bypass: bool, hostRate: nat, x: seq<real>, y: seq<real>)
    requires hostRate >= 1 && Roomy(bypass, hostRate)
    requires if bypass then fs == [] else Planned(fs, hostRate, MODEL_RATE)
    ensures |Added(fs, x, y)| <= 2 * |y|
    ensures Cascade(fs, x) + Added(fs, x, y) == Cascade(fs, x + y)
  {
    CascadeExtends(fs, x, y);
    if !bypass {
      NeverTruncates(fs, hostRate, MODEL_RATE, x, y);
    }
  }

  lemma RoomyAppends(fs: seq<Filter>, bypass: bool, hostRate: nat, x: seq<real>, y: seq<real>, n: nat)
    requires hostRate >= 1 && Roomy(bypass, hostRate) && |y| <= DRAIN_CHUNK
    requires if bypass then fs == [] else Planned(fs, hostRate, MODEL_RATE)
    requires var added := Added(fs, x, y);
             n == if bypass || |added| <= 2 * DRAIN_CHUNK then |added| else 2 * DRAIN_CHUNK
    ensures n <= |Added(fs, x, y)| && Cascade(fs, x) + Added(fs, x, y)[..n] == Cascade(fs, x + y)
  {
    RoomyAdds(fs, bypass, hostRate, x, y);
  }

  lemma {:induction false} FlattenSnoc(blocks: seq<seq<real>>, k: nat)
    requires k < |blocks|
    ensures Flatten(blocks[..k + 1]) == Flatten(blocks[..k]) + blocks[k]
  {
    if k == 0 {
      assert blocks[..1] == [blocks[0]] && blocks[..0] == [];
    } else {
      FlattenSnoc(blocks[1..], k - 1);
      assert blocks[..k + 1][1..] == blocks[1..][..k] && blocks[..k][1..] == blocks[1..][..k - 1];
    }
  }

  lemma Appended(a: seq<real>, b: seq<real>, c: seq<real>)
    ensures (a + b) + c == a + (b + c)
  {
  }

  class AnalysisThread {
    const hostBuffer: SharedRingBuffer
    const modelBuffer: SharedRingBuffer
    const resampler: Resampler
    const drainScratch: array<real>
    var hostCursor: nat

    ghost const hostRate: nat
    ghost const start: nat
    ghost var lost: seq<Range>

    ghost predicate Wired()
      reads resampler`Repr
    {
      && hostBuffer != modelBuffer && hostBuffer.buffer != modelBuffer.buffer
      && drainScratch != hostBuffer.buffer && drainScratch != modelBuffer.buffer
      && resampler.finalOut != hostBuffer.buffer && resampler.finalOut != modelBuffer.buffer
      && resampler.finalOut != drainScratch
      && hostBuffer !in resampler.Repr && hostBuffer.buffer !in resampler.Repr
      && modelBuffer !in resampler.Repr && modelBuffer.buffer !in resampler.Repr
      && drainScratch !in resampler.Repr && resampler !in resampler.Repr && this !in resampler.Repr
      && drainScratch.Length == resampler.maxInput == DRAIN_CHUNK
      && hostRate >= 1
    }

    /** The resampler stands, and its cascade is the planned one. */
    ghost predicate Ready()
      requires hostRate >= 1
      reads resampler, resampler.Repr
    {
      && resampler.Valid()
      && if resampler.bypass then resampler.filters == [] else Planned(resampler.filters, hostRate, MODEL_RATE)
    }

    /** The samples fed so far: the host log since the start without the lost ranges. */
    ghost predicate FedFromHost()
      reads this, hostBuffer`log, resampler`log
    {
      && Between(start, lost, hostCursor) && hostCursor <= |hostBuffer.log|
      && resampler.log == Kept(hostBuffer.log, start, lost, hostCursor)
    }

    /** The model ring's log is what the cascade makes of what was fed. */
    ghost predicate Resampled()
      requires Wired() && Ready()
      reads resampler, resampler.Repr, modelBuffer`log
    {
      Roomy(resampler.bypass, hostRate) ==> modelBuffer.log == Cascade(resampler.filters, resampler.log)
    }

    ghost predicate Valid()
      reads this, hostBuffer, hostBuffer.buffer, modelBuffer, modelBuffer.buffer, resampler, resampler.Repr
    {
      && Wired()
      && hostBuffer.Valid() && modelBuffer.Valid() && Ready()
      && FedFromHost() && Resampled()
    }

    /** Starts at "now": what the host ring already holds is ignored. */
    constructor (hostRing: SharedRingBuffer, hostSampleRate: real, kaiser: (nat, nat) -> seq<real>, avx: bool)
      requires hostRing.Valid() && hostSampleRate >= 0.5
      requires forall up: nat, down: nat :: |kaiser(up, down)| == up * STAGE_TAPS
      ensures Valid() && hostBuffer == hostRing && modelBuffer.capacity == 131072
      ensures hostCursor == start == |hostRing.log| && lost == [] && modelBuffer.log == []
      ensures hostRate == RoundRate(hostSampleRate)
      ensures fresh(modelBuffer) && fresh(modelBuffer.buffer) && fresh(drainScratch)
      ensures fresh(resampler) && fresh(resampler.finalOut) && fresh(resampler.Repr)
    {
      var model := new SharedRingBuffer(RING_CAPACITY);
      var scratch := new real[DRAIN_CHUNK](_ => 0.0);
      var cascade := new Resampler(MODEL_RATE, DRAIN_CHUNK);
      hostBuffer, modelBuffer, resampler, drainScratch := hostRing, model, cascade, scratch;
      hostCursor := hostRing.writeCount;
      hostRate, start, lost := RoundRate(hostSampleRate), hostRing.writeCount, [];
      new;
      Prepare(hostSampleRate, kaiser, avx);
    }

    method Prepare(hostSampleRate: real, kaiser: (nat, nat) -> seq<real>, avx: bool)
      requires Wired() && resampler.Valid() && resampler.target == MODEL_RATE && resampler.Repr == {}
      requires hostBuffer.Valid() && modelBuffer.Valid() && modelBuffer.log == []
      requires lost == [] && hostCursor == start == |hostBuffer.log|
      requires hostSampleRate >= 0.5 && hostRate == RoundRate(hostSampleRate)
      requires forall up: nat, down: nat :: |kaiser(up, down)| == up * STAGE_TAPS
      modifies resampler
      ensures Valid() && resampler.log == []
      ensures fresh(resampler.Repr)
    {
      resampler.Prepare(hostSampleRate, kaiser, avx);
      CascadeOfNothing(resampler.filters);
    }

    /** Resample n samples of the scratch buffer. */
    method Resample(n: nat) returns (out: Block)
      requires Wired() && Ready() && n <= DRAIN_CHUNK
      modifies resampler`log, resampler.Repr, resampler.finalOut
      ensures Ready() && resampler.log == old(resampler.log) + drainScratch[..n]
      ensures out.numSamples <= out.data.Length && out.data != modelBuffer.buffer
      ensures Roomy(resampler.bypass, hostRate) ==>
                Cascade(resampler.filters, old(resampler.log)) + out.data[..out.numSamples] ==
                Cascade(resampler.filters, resampler.log)
    {
      ghost var x, y := resampler.log, drainScratch[..n];
      out := resampler.Process(drainScratch, n);
      if Roomy(resampler.bypass, hostRate) {
        RoomyAppends(resampler.filters, resampler.bypass, hostRate, x, y, out.numSamples);
      }
    }

    /** The body of the drain loop after a read of n samples. */
    method Feed(n: nat)
      requires Wired() && Ready() && modelBuffer.Valid() && Resampled() && n <= DRAIN_CHUNK
      modifies resampler`log, resampler.Repr, resampler.finalOut, modelBuffer, modelBuffer.buffer
      ensures Ready() && modelBuffer.Valid() && Resampled()
      ensures resampler.log == old(resampler.log) + drainScratch[..n]
      ensures old(modelBuffer.log) <= modelBuffer.log
    {
      var out := Resample(n);
      if out.numSamples > 0 {
        modelBuffer.Write(out.data, out.numSamples);
      }
    }

    /** hostBuffer.read into the scratch buffer. */
    method ReadChunk() returns (n: nat)
      requires hostBuffer.Valid() && drainScratch != hostBuffer.buffer && drainScratch.Length == DRAIN_CHUNK
      requires hostCursor <= |hostBuffer.log|
      modifies `hostCursor, drainScratch
      ensures var (from, m) := NextRead(hostBuffer.log, hostBuffer.capacity, old(hostCursor));
              && n == m && hostCursor == from + n
              && drainScratch[..n] == hostBuffer.log[from..hostCursor]
    {
      var overrun;
      n, overrun, hostCursor := hostBuffer.Read(drainScratch, DRAIN_CHUNK, hostCursor);
    }

    /** The read, and what it jumped over. */
    method ReadHost() returns (n: nat)
      requires hostBuffer.Valid() && drainScratch != hostBuffer.buffer && drainScratch.Length == DRAIN_CHUNK
      requires Between(start, lost, hostCursor) && hostCursor <= |hostBuffer.log|
      modifies `hostCursor, `lost, drainScratch
      ensures n == NextRead(hostBuffer.log, hostBuffer.capacity, old(hostCursor)).1
      ensures hostCursor == NextRead(hostBuffer.log, hostBuffer.capacity, old(hostCursor)).0 + n
      ensures lost == Jumped(old(lost), old(hostCursor), hostCursor - n)
      ensures Between(start, lost, hostCursor)
      ensures Kept(hostBuffer.log, start, lost, hostCursor) ==
              Kept(hostBuffer.log, start, old(lost), old(hostCursor)) + drainScratch[..n]
    {
      ghost var cursor, gaps := hostCursor, lost;
      n := ReadChunk();
      lost := Jumped(lost, cursor, hostCursor - n);
      KeptByRead(hostBuffer.log, start, gaps, cursor, hostCursor - n, hostCursor);
    }

    /** One pass of the drain loop: read a chunk, resample it, append to the model ring. */
    method DrainOnce() returns (n: nat)
      requires Valid()
      modifies `hostCursor, `lost, drainScratch
      modifies resampler`log, resampler.Repr, resampler.finalOut, modelBuffer, modelBuffer.buffer
      ensures Valid()
      ensures n == NextRead(hostBuffer.log, hostBuffer.capacity, old(hostCursor)).1
      ensures hostCursor == NextRead(hostBuffer.log, hostBuffer.capacity, old(hostCursor)).0 + n
      ensures lost == Jumped(old(lost), old(hostCursor), hostCursor - n)
      ensures old(modelBuffer.log) <= modelBuffer.log
    {
      ghost var next := NextRead(hostBuffer.log, hostBuffer.capacity, hostCursor);
      n := ReadHost();
      ghost var gaps := lost;
      Feed(n);
      assert n == next.1 && hostCursor == next.0 + n && lost == gaps;
    }

    /** What a valid thread has done: fed the host log since the start without the lost ranges,
        and appended to the model ring what the planned cascade makes of it. */
    lemma FedAndResampled()
      requires Valid()
      ensures Between(start, lost, hostCursor) && hostCursor <= |hostBuffer.log|
      ensures resampler.log == Kept(hostBuffer.log, start, lost, hostCursor)
      ensures resampler.bypass || 2 * hostRate >= 48000 ==>
                modelBuffer.log == Cascade(resampler.filters, resampler.log)
      ensures if resampler.bypass then resampler.filters == []
              else hostRate >= 1 && Planned(resampler.filters, hostRate, 48000)
    {
    }

    /** Work on anything else leaves the thread as it was. */
    twostate lemma Undisturbed()
      requires old(Valid())
      requires unchanged(this, hostBuffer, hostBuffer.buffer, modelBuffer, modelBuffer.buffer, resampler)
      requires unchanged(resampler.Repr)
      ensures Valid()
    {
    }

    /** The audio thread publishes a block. */
    method AudioBlock(block: seq<real>)
      requires Valid()
      modifies hostBuffer, hostBuffer.buffer
      ensures Valid() && hostBuffer.log == old(hostBuffer.log) + block
    {
      var data := new real[|block|](i requires 0 <= i < |block| => block[i]);
      assert data[..|block|] == block;
      KeptOfLonger(hostBuffer.log, block, start, lost, hostCursor);
      hostBuffer.Write(data, |block|);
    }

    /** The audio thread gets at most one more block in, then one pass of the drain loop. */
    method Pass(arrivals: seq<seq<real>>, seen: nat) returns (n: nat)
      requires Valid() && seen <= |arrivals|
      modifies `hostCursor, `lost, drainScratch, hostBuffer, hostBuffer.buffer
      modifies resampler`log, resampler.Repr, resampler.finalOut, modelBuffer, modelBuffer.buffer
      ensures Valid() && old(modelBuffer.log) <= modelBuffer.log
      ensures hostBuffer.log == old(hostBuffer.log) + (if seen < |arrivals| then arrivals[seen] else [])
      ensures if n < DRAIN_CHUNK then hostCursor == |hostBuffer.log| else hostCursor >= old(hostCursor) + n
      ensures hostCursor >= old(hostCursor) && old(lost) <= lost
      ensures lost == old(lost) <==> |hostBuffer.log| <= old(hostCursor) + hostBuffer.capacity
    {
      if seen < |arrivals| {
        AudioBlock(arrivals[seen]);
      }
      n := DrainOnce();
    }

    /** resampleHostInput(), while the audio thread publishes at most one block of `arrivals`
        before each read. It ends with nothing published left unread; `seen` of the blocks
        came in time. No sample is lost unless more than a ring of them is unread. */
    method ResampleHostInput(arrivals: seq<seq<real>>) returns (seen: nat)
      requires Valid()
      modifies `hostCursor, `lost, drainScratch, hostBuffer, hostBuffer.buffer
      modifies resampler`log, resampler.Repr, resampler.finalOut, modelBuffer, modelBuffer.buffer
      ensures Valid() && seen <= |arrivals|
      ensures hostBuffer.log == old(hostBuffer.log) + Flatten(arrivals[..seen])
      ensures hostCursor == |hostBuffer.log| && old(modelBuffer.log) <= modelBuffer.log
      ensures old(lost) <= lost
      ensures |hostBuffer.log| <= old(hostCursor) + hostBuffer.capacity ==> lost == old(lost)
    {
      seen := 0;
      while true
        invariant Valid() && seen <= |arrivals|
        invariant hostBuffer.log == old(hostBuffer.log) + Flatten(arrivals[..seen])
        invariant old(modelBuffer.log) <= modelBuffer.log
        invariant hostCursor >= old(hostCursor) && old(lost) <= lost
        invariant |hostBuffer.log| <= old(hostCursor) + hostBuffer.capacity ==> lost == old(lost)
        decreases |arrivals| - seen, |hostBuffer.log| - hostCursor
      {
        ghost var before := hostBuffer.log;
        var n := Pass(arrivals, seen);
        if seen < |arrivals| {
          FlattenSnoc(arrivals, seen);
          Appended(old(hostBuffer.log), Flatten(arrivals[..seen]), arrivals[seen]);
          seen := seen + 1;
        } else {
          assert hostBuffer.log == before;
        }
        if n < DRAIN_CHUNK {
          break;
        }
      }
    }
  }
}
