/** SharedRingBuffer under concurrency: one writer and one reader taking turns at the
    granularity of single slot stores, slot copies and counter accesses. Readers never
    change shared state, so one stands for any number. */
module RingProtocol {
  import opened Basics
  import opened SharedRing
  import opened Sums

  /** Between the first slot store of a block and its publish the writer is Storing. */
  datatype Writer =
    | Idle
    | Storing(block: seq<real>, done: nat)

  datatype Reader =
    | Rest
    // readLastN: about to load the counter / copying / accepted / every attempt lapped
    | Attempt(n: nat, left: nat)
    | Copying(n: nat, left: nat, before: nat, start: nat, copied: seq<real>)
    | Accepted(n: nat, before: nat, start: nat, reread: nat, stored: nat, copied: seq<real>)
    | Lapped
    // read: copying from the cursor / finished, with the log length at that moment
    | Draining(cursor: nat, count: nat, overrun: bool, got: seq<real>)
    | Drained(cursor: nat, count: nat, overrun: bool, stored: nat, got: seq<real>)

  datatype State = State(buffer: seq<real>, writeCount: nat, log: seq<real>, writer: Writer, reader: Reader)

  datatype Event =
    | BeginWrite(block: seq<real>)
    | StoreSlot
    | Publish
    | BeginReadLastN(n: nat, maxRetries: nat)
    | LoadCounter
    | CopySlot
    | Reread
    | BeginRead(cursor: nat, maxSamples: nat)

  function Init(cap: nat): State {
    State(Zeros(cap), 0, [], Idle, Rest)
  }

  predicate Enabled(s: State, e: Event) {
    match e
    case BeginWrite(_) => s.writer.Idle?
    case StoreSlot => s.writer.Storing? && s.writer.done < |s.writer.block| && |s.buffer| > 0
    case Publish => s.writer.Storing? && s.writer.done == |s.writer.block|
    case BeginReadLastN(_, _) => !s.reader.Attempt? && !s.reader.Copying? && !s.reader.Draining?
    case LoadCounter => s.reader.Attempt?
    case CopySlot =>
      && |s.buffer| > 0
      && (|| (s.reader.Copying? && s.reader.start + |s.reader.copied| < s.reader.before)
          || (s.reader.Draining? && |s.reader.got| < s.reader.count))
    case Reread => s.reader.Copying? && s.reader.start + |s.reader.copied| >= s.reader.before
    case BeginRead(cursor, _) =>
      && !s.reader.Attempt? && !s.reader.Copying? && !s.reader.Draining?
      && cursor <= s.writeCount
  }

  function Clamp(n: nat, cap: nat): nat {
    if n > cap then cap else n
  }

  function Apply(s: State, e: Event): State
    requires Enabled(s, e)
  {
    var cap := |s.buffer|;
    match e
    case BeginWrite(block) => s.(writer := Storing(block, 0))
    case StoreSlot =>
      var w := s.writer;
      s.(buffer := s.buffer[(s.writeCount + w.done) % cap := w.block[w.done]],
         log := s.log + [w.block[w.done]],
         writer := Storing(w.block, w.done + 1))
    case Publish => s.(writeCount := s.writeCount + |s.writer.block|, writer := Idle)
    case BeginReadLastN(n, maxRetries) =>
      s.(reader := if maxRetries == 0 then Lapped else Attempt(Clamp(n, cap), maxRetries))
    case LoadCounter =>
      var before, n := s.writeCount, s.reader.n;
      s.(reader := if before == 0 then Accepted(n, 0, 0, 0, |s.log|, [])
                   else Copying(n, s.reader.left, before, if before >= n then before - n else 0, []))
    case CopySlot =>
      (match s.reader
       case Copying(n, left, before, start, copied) =>
         var slot := (start + |copied|) % cap;
         s.(reader := Copying(n, left, before, start, copied + [s.buffer[slot]]))
       case Draining(cursor, count, overrun, got) =>
         var got' := got + [s.buffer[(cursor + |got|) % cap]];
         s.(reader := if |got'| == count then Drained(cursor, count, overrun, |s.log|, got')
                      else Draining(cursor, count, overrun, got')))
    case Reread =>
      var r := s.reader;
      s.(reader := if s.writeCount - r.start <= cap
                   then Accepted(r.n, r.before, r.start, s.writeCount, |s.log|, r.copied)
                   else if r.left <= 1 then Lapped
                   else Attempt(r.n, r.left - 1))
    case BeginRead(cursor, maxSamples) =>
      var overrun := s.writeCount > cursor + cap;
      var from := if overrun then s.writeCount - cap else cursor;
      var count := Clamp(maxSamples, s.writeCount - from);
      s.(reader := if count == 0 then Drained(from, 0, overrun, |s.log|, []) else Draining(from, count, overrun, []))
  }

  /** A finite run: the state after the events, if each was enabled in turn. */
  function Run(s: State, es: seq<Event>): Option<State>
    decreases |es|
  {
    if es == [] then Some(s)
    else if !Enabled(s, es[0]) then None
    else Run(Apply(s, es[0]), es[1..])
  }

  ghost predicate BlocksAtMost(es: seq<Event>, B: nat) {
    forall e | e in es :: e.BeginWrite? ==> |e.block| <= B
  }

  // ---- The invariant.

  /** copied[j] is right unless the log has already grown past the slot's lifetime. */
  ghost predicate Faithful(log: seq<real>, seen: nat, cap: nat, start: nat, copied: seq<real>) {
    && start + |copied| <= |log|
    && forall j | 0 <= j < |copied| && seen <= start + j + cap :: copied[j] == log[start + j]
  }

  ghost predicate WriterInv(s: State, B: nat) {
    match s.writer
    case Idle => |s.log| == s.writeCount
    case Storing(block, done) =>
      && done <= |block| <= B
      && |s.log| == s.writeCount + done
      && s.log[s.writeCount..] == block[..done]
  }

  ghost predicate ReaderInv(s: State, B: nat) {
    var cap := |s.buffer|;
    match s.reader
    case Rest => true
    case Lapped => true
    case Attempt(n, left) => n <= cap && left >= 1
    case Copying(n, left, before, start, copied) =>
      && n <= cap && left >= 1
      && 1 <= before <= s.writeCount
      && start == (if before >= n then before - n else 0)
      && start + |copied| <= before
      && Faithful(s.log, |s.log|, cap, start, copied)
    case Accepted(n, before, start, reread, stored, copied) =>
      && n <= cap
      && start == (if before >= n then before - n else 0)
      && start + |copied| == (if before == 0 then 0 else before)
      && before <= reread <= s.writeCount
      && reread - start <= cap
      && reread <= stored <= reread + B && stored <= |s.log|
      && (before > 0 ==> Faithful(s.log, stored, cap, start, copied))
    case Draining(cursor, count, _, got) =>
      && |got| < count && cursor + count <= s.writeCount
      && Faithful(s.log, |s.log|, cap, cursor, got)
    case Drained(cursor, count, _, stored, got) =>
      && |got| == count && cursor + count <= s.writeCount
      && stored <= |s.log| && stored <= s.writeCount + B
      && Faithful(s.log, stored, cap, cursor, got)
  }

  ghost predicate Inv(s: State, cap: nat, B: nat) {
    && |s.buffer| == cap >= 1
    && Holds(s.buffer, s.log)
    && WriterInv(s, B)
    && ReaderInv(s, B)
  }

  /** Storing one sample overwrites one old slot and nothing a reader may still rely on. */
  lemma StoreKeepsInv(s: State, cap: nat, B: nat)
    requires Inv(s, cap, B) && Enabled(s, StoreSlot)
    ensures Inv(Apply(s, StoreSlot), cap, B)
  {
    StoreKeepsHolds(s.buffer, s.log, s.writer.block[s.writer.done]);
    StoreKeepsWriter(s, cap, B);
    StoreKeepsReader(s, cap, B);
  }

  lemma StoreKeepsWriter(s: State, cap: nat, B: nat)
    requires Inv(s, cap, B) && Enabled(s, StoreSlot)
    ensures WriterInv(Apply(s, StoreSlot), B)
  {
    var w, t := s.writer, Apply(s, StoreSlot);
    assert t.log[s.writeCount..] == s.log[s.writeCount..] + [w.block[w.done]];
    assert w.block[..w.done + 1] == w.block[..w.done] + [w.block[w.done]];
  }

  lemma StoreKeepsReader(s: State, cap: nat, B: nat)
    requires Inv(s, cap, B) && Enabled(s, StoreSlot)
    ensures ReaderInv(Apply(s, StoreSlot), B)
  {
    LoggedKeepsReader(s, Apply(s, StoreSlot), s.writer.block[s.writer.done], cap, B);
  }

  /** Wherever the sample went, the log has grown by it. */
  lemma LoggedKeepsReader(s: State, t: State, x: real, cap: nat, B: nat)
    requires |s.buffer| == |t.buffer| == cap && ReaderInv(s, B)
    requires t.log == s.log + [x] && t.writeCount == s.writeCount && t.reader == s.reader
    ensures ReaderInv(t, B)
  {
    match s.reader
    case Copying(_, _, _, start, copied) => LongerLog(s.log, x, |s.log|, cap, start, copied);
    case Accepted(_, _, start, _, stored, copied) =>
      if s.reader.before > 0 {
        FixedLog(s.log, x, stored, cap, start, copied);
      }
    case Draining(cursor, _, _, got) => LongerLog(s.log, x, |s.log|, cap, cursor, got);
    case Drained(cursor, _, _, stored, got) => FixedLog(s.log, x, stored, cap, cursor, got);
    case _ =>
  }

  /** A longer log asks less of what was copied before, */
  lemma LongerLog(log: seq<real>, x: real, seen: nat, cap: nat, start: nat, copied: seq<real>)
    requires Faithful(log, seen, cap, start, copied) && seen == |log|
    ensures Faithful(log + [x], seen + 1, cap, start, copied)
  {
  }

  /** and a finished read is not touched by it. */
  lemma FixedLog(log: seq<real>, x: real, seen: nat, cap: nat, start: nat, copied: seq<real>)
    requires Faithful(log, seen, cap, start, copied)
    ensures Faithful(log + [x], seen, cap, start, copied)
  {
  }

  /** A slot read while its sample is live gives that sample. */
  lemma CopyKeepsFaithful(buffer: seq<real>, log: seq<real>, start: nat, copied: seq<real>)
    requires |buffer| >= 1 && Holds(buffer, log)
    requires start + |copied| < |log| && Faithful(log, |log|, |buffer|, start, copied)
    ensures Faithful(log, |log|, |buffer|, start, copied + [buffer[(start + |copied|) % |buffer|]])
  {
    var k := start + |copied|;
    if |log| <= k + |buffer| {
      HeldSample(buffer, log, k);
    }
  }

  lemma CopyKeepsInv(s: State, cap: nat, B: nat)
    requires Inv(s, cap, B) && Enabled(s, CopySlot)
    ensures Inv(Apply(s, CopySlot), cap, B)
  {
    if s.reader.Copying? {
      SnapshotCopyKeepsReader(s, cap, B);
    } else {
      DrainCopyKeepsReader(s, cap, B);
    }
  }

  lemma SnapshotCopyKeepsReader(s: State, cap: nat, B: nat)
    requires Inv(s, cap, B) && Enabled(s, CopySlot) && s.reader.Copying?
    ensures ReaderInv(Apply(s, CopySlot), B)
  {
    CopyKeepsFaithful(s.buffer, s.log, s.reader.start, s.reader.copied);
  }

  lemma DrainCopyKeepsReader(s: State, cap: nat, B: nat)
    requires Inv(s, cap, B) && Enabled(s, CopySlot) && s.reader.Draining?
    ensures ReaderInv(Apply(s, CopySlot), B)
  {
    CopyKeepsFaithful(s.buffer, s.log, s.reader.cursor, s.reader.got);
  }

  lemma StepKeepsInv(s: State, e: Event, cap: nat, B: nat)
    requires Inv(s, cap, B) && Enabled(s, e)
    requires e.BeginWrite? ==> |e.block| <= B
    ensures Inv(Apply(s, e), cap, B)
  {
    match e
    case StoreSlot => StoreKeepsInv(s, cap, B);
    case BeginWrite(block) => BeginKeepsInv(s, block, cap, B);
    case Publish => PublishKeepsInv(s, cap, B);
    case CopySlot => CopyKeepsInv(s, cap, B);
    case Reread => RereadKeepsInv(s, cap, B);
    case _ => LoadKeepsInv(s, e, cap, B);
  }

  lemma BeginKeepsInv(s: State, block: seq<real>, cap: nat, B: nat)
    requires Inv(s, cap, B) && Enabled(s, BeginWrite(block)) && |block| <= B
    ensures Inv(Apply(s, BeginWrite(block)), cap, B)
  {
  }

  lemma PublishKeepsInv(s: State, cap: nat, B: nat)
    requires Inv(s, cap, B) && Enabled(s, Publish)
    ensures Inv(Apply(s, Publish), cap, B)
  {
  }

  lemma RereadKeepsInv(s: State, cap: nat, B: nat)
    requires Inv(s, cap, B) && Enabled(s, Reread)
    ensures Inv(Apply(s, Reread), cap, B)
  {
  }

  /** The start of a read, and the first load of the counter. */
  lemma LoadKeepsInv(s: State, e: Event, cap: nat, B: nat)
    requires Inv(s, cap, B) && Enabled(s, e)
    requires e.BeginReadLastN? || e.LoadCounter? || e.BeginRead?
    ensures Inv(Apply(s, e), cap, B)
  {
  }

  lemma {:induction false} RunKeepsInv(s: State, es: seq<Event>, cap: nat, B: nat)
    requires Inv(s, cap, B) && BlocksAtMost(es, B)
    ensures Run(s, es).Some? ==> Inv(Run(s, es).value, cap, B)
    decreases |es|
  {
    if es != [] && Enabled(s, es[0]) {
      StepKeepsInv(s, es[0], cap, B);
      RunKeepsInv(Apply(s, es[0]), es[1..], cap, B);
    }
  }

  lemma InitInv(cap: nat, B: nat)
    requires cap >= 1
    ensures Inv(Init(cap), cap, B)
  {
  }

  // ---- What an accepted snapshot is worth.

  /** The window readLastN leaves in dest: zero padding, then what was copied. */
  function Delivered(r: Reader): seq<real>
    requires r.Accepted?
  {
    if |r.copied| <= r.n then Zeros(r.n - |r.copied|) + r.copied else r.copied
  }

  /** The window is the newest n of the samples published at the first load. */
  ghost predicate Exact(s: State) {
    s.reader.Accepted? ==>
      s.reader.before <= |s.log| && Delivered(s.reader) == LastN(s.log[..s.reader.before], s.reader.n)
  }

  /** Sound if the log had not outgrown the oldest copied slot at the re-read, counting
      the samples of a block still being stored. */
  lemma AcceptedIsExact(s: State, cap: nat, B: nat)
    requires Inv(s, cap, B) && s.reader.Accepted?
    requires s.reader.before > 0 ==> s.reader.stored - s.reader.start <= cap
    ensures Exact(s)
  {
    var r := s.reader;
    if r.before > 0 {
      assert r.copied == s.log[r.start..r.before];
    }
  }

  /** No block between its first store and its publish at the re-read: the source's own
      test is enough. */
  lemma QuietSnapshotIsExact(es: seq<Event>, cap: nat, B: nat, t: State)
    requires cap >= 1 && BlocksAtMost(es, B) && Run(Init(cap), es) == Some(t)
    requires t.reader.Accepted? && t.reader.stored == t.reader.reread
    ensures Exact(t)
  {
    InitInv(cap, B);
    RunKeepsInv(Init(cap), es, cap, B);
    AcceptedIsExact(t, cap, B);
  }

  /** Whenever the re-read leaves room for one whole block, the snapshot is exact, in every
      interleaving. */
  lemma SnapshotWithSlackIsExact(es: seq<Event>, cap: nat, B: nat, t: State)
    requires cap >= 1 && BlocksAtMost(es, B) && Run(Init(cap), es) == Some(t)
    requires t.reader.Accepted? && t.reader.reread - t.reader.start + B <= cap
    ensures Exact(t)
  {
    InitInv(cap, B);
    RunKeepsInv(Init(cap), es, cap, B);
    AcceptedIsExact(t, cap, B);
  }

  /** read() returned exactly the log from the (possibly advanced) cursor on. */
  ghost predicate DrainExact(s: State) {
    s.reader.Drained? ==>
      && s.reader.cursor + s.reader.count <= |s.log|
      && s.reader.got == s.log[s.reader.cursor..s.reader.cursor + s.reader.count]
  }

  /** It did unless the writer had by then stored past the cursor's slot. */
  lemma DrainIsExact(es: seq<Event>, cap: nat, B: nat, t: State)
    requires cap >= 1 && BlocksAtMost(es, B) && Run(Init(cap), es) == Some(t)
    requires t.reader.Drained? && (t.reader.count > 0 ==> t.reader.stored - t.reader.cursor <= cap)
    ensures DrainExact(t)
  {
    InitInv(cap, B);
    RunKeepsInv(Init(cap), es, cap, B);
  }

  // ---- How often a snapshot is tried.

  /** How many times the counter is re-read. */
  function Rereads(es: seq<Event>): nat {
    if es == [] then 0 else (if es[0].Reread? then 1 else 0) + Rereads(es[1..])
  }

  ghost predicate SameCall(es: seq<Event>) {
    forall e | e in es :: !e.BeginReadLastN? && !e.BeginRead?
  }

  /** Once the call has returned only the writer goes on. */
  lemma {:induction false} ReturnedStays(s: State, es: seq<Event>, t: State)
    requires (s.reader.Accepted? || s.reader.Lapped?) && SameCall(es) && Run(s, es) == Some(t)
    ensures t.reader == s.reader && Rereads(es) == 0
    decreases |es|
  {
    if es != [] {
      assert es[0] in es;
      ReturnedStays(Apply(s, es[0]), es[1..], t);
    }
  }

  lemma {:induction false} TriesAreCounted(s: State, es: seq<Event>, t: State)
    requires (s.reader.Attempt? || s.reader.Copying?) && s.reader.left >= 1
    requires SameCall(es) && Run(s, es) == Some(t)
    ensures Rereads(es) <= s.reader.left
    ensures t.reader.Attempt? || t.reader.Copying? ==> t.reader.left == s.reader.left - Rereads(es) >= 1
    ensures t.reader.Lapped? ==> Rereads(es) == s.reader.left
    ensures t.reader.Attempt? || t.reader.Copying? || t.reader.Lapped? || t.reader.Accepted?
    decreases |es|
  {
    if es != [] {
      assert es[0] in es;
      var next := Apply(s, es[0]);
      if next.reader.Accepted? || next.reader.Lapped? {
        ReturnedStays(next, es[1..], t);
      } else {
        TriesAreCounted(next, es[1..], t);
      }
    }
  }

  /** A snapshot makes at most maxRetries attempts, gives up only after all of them, each found
      lapped by its re-read, and with none allowed at once. */
  lemma RetriesAreCounted(s: State, n: nat, maxRetries: nat, es: seq<Event>, t: State)
    requires Enabled(s, BeginReadLastN(n, maxRetries)) && SameCall(es)
    requires Run(Apply(s, BeginReadLastN(n, maxRetries)), es) == Some(t)
    ensures Rereads(es) <= maxRetries
    ensures t.reader.Lapped? ==> Rereads(es) == maxRetries
    ensures Rereads(es) == maxRetries ==> t.reader.Lapped? || t.reader.Accepted?
  {
    var first := Apply(s, BeginReadLastN(n, maxRetries));
    if maxRetries == 0 {
      ReturnedStays(first, es, t);
    } else {
      TriesAreCounted(first, es, t);
    }
  }

  /** An attempt is given up exactly when more than the capacity has been published past the
      oldest sample it copied. */
  lemma AttemptIsLappedExactly(s: State)
    requires Enabled(s, Reread)
    ensures Apply(s, Reread).reader.Accepted? <==> s.writeCount <= s.reader.start + |s.buffer|
  {
  }

  // ---- The source's test leaves no slack, and none is not enough.

  /** Accepting with `slack` samples to spare never yields a torn window. */
  ghost predicate SlackSound(cap: nat, B: nat, slack: nat) {
    forall es, t |
      && Run(Init(cap), es) == Some(t) && BlocksAtMost(es, B)
      && t.reader.Accepted? && t.reader.reread - t.reader.start + slack <= cap
      :: Exact(t)
  }

  /** Sample k of the witness run has value k, so no two are alike. */
  function Ramp(from: nat, to: nat): (s: seq<real>)
    requires from <= to
    ensures |s| == to - from
  {
    seq(to - from, i requires 0 <= i => (from + i) as real)
  }

  lemma {:induction false} RunConcat(s: State, es: seq<Event>, fs: seq<Event>)
    requires Run(s, es).Some?
    ensures Run(s, es + fs) == Run(Run(s, es).value, fs)
    decreases |es|
  {
    if es == [] {
      assert es + fs == fs;
    } else {
      assert (es + fs)[0] == es[0] && (es + fs)[1..] == es[1..] + fs;
      RunConcat(Apply(s, es[0]), es[1..], fs);
    }
  }

  /** From s the events lead to `published` counted and `stored` logged ramp samples, with
      the reader where it was. */
  ghost predicate Reaches(s: State, es: seq<Event>, published: nat, stored: nat) {
    var end := Run(s, es);
    && end.Some?
    && end.value.writeCount == published && end.value.log == Ramp(0, stored)
    && (published == stored ==> end.value.writer == Idle)
    && end.value.reader == s.reader && |end.value.buffer| == |s.buffer|
  }

  /** One sample written as a block of its own. */
  function Single(k: nat): seq<Event> {
    [BeginWrite([k as real]), StoreSlot, Publish]
  }

  lemma RunSingle(s: State, k: nat)
    requires s.writer.Idle? && |s.buffer| >= 1
    requires s.writeCount == k && s.log == Ramp(0, k)
    ensures Reaches(s, Single(k), k + 1, k + 1)
  {
    var es := Single(k);
    var a := Apply(s, es[0]);
    var b := Apply(a, es[1]);
    var c := Apply(b, es[2]);
    assert es[1..][0] == es[1] && es[1..][1..] == [es[2]];
    assert Run(b, [es[2]]) == Run(c, []);
    assert Run(a, es[1..]) == Run(b, [es[2]]);
    assert Run(s, es) == Run(a, es[1..]);
    assert b.log == Ramp(0, k) + [k as real] == Ramp(0, k + 1);
  }

  /** Samples from..end-1, one block each. */
  function Singles(from: nat, end: nat): seq<Event>
    requires from <= end
    decreases end
  {
    if from == end then [] else Singles(from, end - 1) + Single(end - 1)
  }

  lemma {:induction false} RunSingles(s: State, from: nat, end: nat)
    requires from <= end && s.writer.Idle? && |s.buffer| >= 1
    requires s.writeCount == from && s.log == Ramp(0, from)
    ensures Reaches(s, Singles(from, end), end, end)
    decreases end - from
  {
    if from < end {
      RunSingles(s, from, end - 1);
      RunSingle(Run(s, Singles(from, end - 1)).value, end - 1);
      RunConcat(s, Singles(from, end - 1), Single(end - 1));
    }
  }

  /** A block of m samples begun and stored, but not published. */
  function Unpublished(from: nat, m: nat): seq<Event> {
    [BeginWrite(Ramp(from, from + m))] + seq(m, i => StoreSlot)
  }

  lemma {:induction false} RunStores(s: State, from: nat, m: nat, k: nat)
    requires 1 <= k <= m && |s.buffer| >= 1
    requires s.writer == Storing(Ramp(from, from + m), m - k)
    requires s.writeCount == from && s.log == Ramp(0, from + m - k)
    ensures Reaches(s, seq(k, i => StoreSlot), from, from + m)
    decreases k
  {
    var es := seq(k, i => StoreSlot);
    var t := Apply(s, StoreSlot);
    assert t.log == Ramp(0, from + m - (k - 1));
    assert es[0] == StoreSlot && es[1..] == seq(k - 1, i => StoreSlot);
    if k > 1 {
      RunStores(t, from, m, k - 1);
    } else {
      assert es[1..] == [];
    }
  }

  lemma RunUnpublished(s: State, from: nat, m: nat)
    requires m >= 1 && s.writer.Idle? && |s.buffer| >= 1
    requires s.writeCount == from && s.log == Ramp(0, from)
    ensures Reaches(s, Unpublished(from, m), from, from + m)
  {
    var begin := BeginWrite(Ramp(from, from + m));
    var es := Unpublished(from, m);
    assert es[0] == begin && es[1..] == seq(m, i => StoreSlot);
    RunStores(Apply(s, begin), from, m, m);
  }

  /** The torn runs: one sample is published and a read of it begins; the writer publishes up
      to `slack` short of the capacity, stores slack + 1 more, and only then is the slot
      copied. */
  function TornPrefix(cap: nat, slack: nat, begin: seq<Event>): seq<Event>
    requires slack < cap
  {
    Singles(0, 1) + begin + Singles(1, cap - slack) + Unpublished(cap - slack, slack + 1)
  }

  function Snapshot(n: nat): seq<Event> {
    [BeginReadLastN(n, 1), LoadCounter]
  }

  const CURSOR_READ := [BeginRead(0, 1)]

  /** After one published sample these events only leave the reader in state r. */
  ghost predicate Begins(cap: nat, begin: seq<Event>, r: Reader) {
    forall s: State | s.writeCount == 1 && s.reader == Rest && |s.buffer| == cap ::
      Run(s, begin) == Some(s.(reader := r))
  }

  lemma SnapshotBegins(cap: nat, n: nat)
    requires cap >= 1 && n >= 1
    ensures Begins(cap, Snapshot(n), Copying(Clamp(n, cap), 1, 1, 0, []))
  {
    assert Snapshot(n)[1..] == [LoadCounter] && [LoadCounter][1..] == [];
    forall s: State | s.writeCount == 1 && s.reader == Rest && |s.buffer| == cap
      ensures Run(s, Snapshot(n)) == Some(s.(reader := Copying(Clamp(n, cap), 1, 1, 0, [])))
    {
      var t := Apply(s, BeginReadLastN(n, 1));
      assert Run(t, [LoadCounter]) == Run(Apply(t, LoadCounter), []);
    }
  }

  lemma CursorReadBegins(cap: nat)
    requires cap >= 1
    ensures Begins(cap, CURSOR_READ, Draining(0, 1, false, []))
  {
    assert CURSOR_READ[1..] == [];
    forall s: State | s.writeCount == 1 && s.reader == Rest && |s.buffer| == cap
      ensures Run(s, CURSOR_READ) == Some(s.(reader := Draining(0, 1, false, [])))
    {
      assert Run(Apply(s, BeginRead(0, 1)), []) == Some(Apply(s, BeginRead(0, 1)));
    }
  }

  lemma TornPrefixRuns(cap: nat, slack: nat, begin: seq<Event>, r: Reader)
    requires slack < cap && Begins(cap, begin, r)
    ensures var end := Run(Init(cap), TornPrefix(cap, slack, begin));
            && end.Some?
            && end.value.writeCount == cap - slack && end.value.log == Ramp(0, cap + 1)
            && end.value.reader == r && |end.value.buffer| == cap
  {
    RunSingles(Init(cap), 0, 1);
    RunConcat(Init(cap), Singles(0, 1), begin);
    var s := Run(Init(cap), Singles(0, 1) + begin).value;
    RestRuns(s, cap, slack);
    var rest := Singles(1, cap - slack) + Unpublished(cap - slack, slack + 1);
    RunConcat(Init(cap), Singles(0, 1) + begin, rest);
    assert Singles(0, 1) + begin + rest == TornPrefix(cap, slack, begin);
  }

  lemma RestRuns(s: State, cap: nat, slack: nat)
    requires slack < cap && s.writer.Idle? && |s.buffer| == cap && s.writeCount == 1 && s.log == Ramp(0, 1)
    ensures Reaches(s, Singles(1, cap - slack) + Unpublished(cap - slack, slack + 1), cap - slack, cap + 1)
  {
    RunSingles(s, 1, cap - slack);
    RunUnpublished(Run(s, Singles(1, cap - slack)).value, cap - slack, slack + 1);
    RunConcat(s, Singles(1, cap - slack), Unpublished(cap - slack, slack + 1));
  }

  lemma TornPrefixBlocks(cap: nat, slack: nat, begin: seq<Event>, B: nat)
    requires slack < cap && slack < B && forall e | e in begin :: !e.BeginWrite?
    ensures BlocksAtMost(TornPrefix(cap, slack, begin), B)
  {
    SinglesBlocks(0, 1);
    SinglesBlocks(1, cap - slack);
  }

  /** That prefix keeps the invariant, and its last store went to the slot of sample 0. */
  lemma TornPrefixHolds(cap: nat, slack: nat, begin: seq<Event>, r: Reader, B: nat)
    requires slack < cap && slack < B && Begins(cap, begin, r) && forall e | e in begin :: !e.BeginWrite?
    ensures BlocksAtMost(TornPrefix(cap, slack, begin), B)
    ensures Run(Init(cap), TornPrefix(cap, slack, begin)).Some?
    ensures var s := Run(Init(cap), TornPrefix(cap, slack, begin)).value;
            && s.writeCount == cap - slack && s.log == Ramp(0, cap + 1) && s.reader == r
            && |s.buffer| == cap && s.buffer[0] == cap as real
  {
    var es := TornPrefix(cap, slack, begin);
    TornPrefixRuns(cap, slack, begin, r);
    TornPrefixBlocks(cap, slack, begin, B);
    InitInv(cap, B);
    RunKeepsInv(Init(cap), es, cap, B);
    var s := Run(Init(cap), es).value;
    HeldSample(s.buffer, s.log, cap);
    DivModUnique(cap, cap, 1, 0);
  }

  lemma {:induction false} SinglesBlocks(from: nat, end: nat)
    requires from <= end
    ensures BlocksAtMost(Singles(from, end), 1)
    decreases end
  {
    if from < end {
      SinglesBlocks(from, end - 1);
    }
  }

  /** The last two reader steps after the prefix, from any state that looks like its end. */
  lemma CopyOverwrittenSlot(s: State, cap: nat, w: nat, n: nat)
    requires cap >= 1 && |s.buffer| == cap && s.buffer[0] == cap as real
    requires s.writeCount == w && 1 <= w <= cap && s.log == Ramp(0, cap + 1)
    requires n >= 1 && s.reader == Copying(n, 1, 1, 0, [])
    ensures Run(s, [CopySlot, Reread]) == Some(s.(reader := Accepted(n, 1, 0, w, cap + 1, [cap as real])))
  {
    var c := Apply(s, CopySlot);
    assert c.reader == Copying(n, 1, 1, 0, [cap as real]);
    assert [CopySlot, Reread][1..] == [Reread] && [Reread][1..] == [];
    assert Run(c, [Reread]) == Some(Apply(c, Reread));
  }

  /** However large the window, that run ends in an accepted window holding sample `cap`
      where sample 0 belongs. */
  lemma TornSnapshot(cap: nat, slack: nat, n: nat, B: nat)
    requires slack < cap && slack < B && n >= 1
    ensures var es := TornPrefix(cap, slack, Snapshot(n)) + [CopySlot, Reread];
            && BlocksAtMost(es, B)
            && Run(Init(cap), es).Some?
            && Run(Init(cap), es).value.reader == Accepted(Clamp(n, cap), 1, 0, cap - slack, cap + 1, [cap as real])
            && !Exact(Run(Init(cap), es).value)
  {
    var es, m := TornPrefix(cap, slack, Snapshot(n)), Clamp(n, cap);
    SnapshotBegins(cap, n);
    TornPrefixHolds(cap, slack, Snapshot(n), Copying(m, 1, 1, 0, []), B);
    var s := Run(Init(cap), es).value;
    CopyOverwrittenSlot(s, cap, cap - slack, m);
    RunConcat(Init(cap), es, [CopySlot, Reread]);
    var t := Run(s, [CopySlot, Reread]).value;
    assert t.log[..1] == [0.0];
    assert LastN(t.log[..1], m)[m - 1] == 0.0;
    assert Delivered(t.reader)[m - 1] == cap as real;
  }

  /** The last copy of a cursor read of one sample, and what it means that its slot holds
      another sample by then. */
  lemma DrainOverwrittenSlot(s: State, cursor: nat, overrun: bool, x: real)
    requires |s.buffer| >= 1 && s.reader == Draining(cursor, 1, overrun, [])
    requires s.buffer[cursor % |s.buffer|] == x && cursor < |s.log| && s.log[cursor] != x
    ensures var t := s.(reader := Drained(cursor, 1, overrun, |s.log|, [x]));
            Run(s, [CopySlot]) == Some(t) && !DrainExact(t)
  {
    var t := Apply(s, CopySlot);
    assert [] + [x] == [x];
    assert [CopySlot][1..] == [] && Run(s, [CopySlot]) == Run(t, []);
    assert t.log[cursor..cursor + 1][0] == s.log[cursor];
  }

  /** The cursor read of the same sample ends with the same wrong one. */
  lemma TornDrain(cap: nat, slack: nat, B: nat) returns (es: seq<Event>, t: State)
    requires slack < cap && slack < B
    ensures BlocksAtMost(es, B) && Run(Init(cap), es) == Some(t)
    ensures t.writeCount == cap - slack && t.reader == Drained(0, 1, false, cap + 1, [cap as real])
    ensures !DrainExact(t)
  {
    var prefix := TornPrefix(cap, slack, CURSOR_READ);
    CursorReadBegins(cap);
    TornPrefixHolds(cap, slack, CURSOR_READ, Draining(0, 1, false, []), B);
    var s := Run(Init(cap), prefix).value;
    DrainOverwrittenSlot(s, 0, false, cap as real);
    RunConcat(Init(cap), prefix, [CopySlot]);
    es, t := prefix + [CopySlot], s.(reader := Drained(0, 1, false, |s.log|, [cap as real]));
  }

  /** A read() whose caller re-reads the counter afterwards, and drops what it got unless
      `slack` samples are to spare, is never torn. */
  ghost predicate DrainSlackSound(cap: nat, B: nat, slack: nat) {
    forall es, t |
      && Run(Init(cap), es) == Some(t) && BlocksAtMost(es, B)
      && t.reader.Drained? && t.writeCount - t.reader.cursor + slack <= cap
      :: DrainExact(t)
  }

  /** Again that holds exactly with a whole block to spare (or so much that nothing is ever
      kept). read() makes no such test at all. */
  lemma DrainSlackIsExact(cap: nat, B: nat, slack: nat)
    requires cap >= 1
    ensures DrainSlackSound(cap, B, slack) <==> slack >= B || slack >= cap
  {
    if slack >= B || slack >= cap {
      forall es, t |
        && Run(Init(cap), es) == Some(t) && BlocksAtMost(es, B)
        && t.reader.Drained? && t.writeCount - t.reader.cursor + slack <= cap
        ensures DrainExact(t)
      {
        InitInv(cap, B);
        RunKeepsInv(Init(cap), es, cap, B);
        DrainIsExact(es, cap, B, t);
      }
    } else {
      var es, t := TornDrain(cap, slack, B);
      assert !DrainExact(t);
    }
  }

  /** A reader more than a capacity behind jumps to the oldest live sample. */
  function JumpPrefix(cap: nat): seq<Event> {
    Singles(0, cap + 1) + [BeginRead(0, 1)] + Unpublished(cap + 1, 1)
  }

  lemma JumpPrefixRuns(cap: nat)
    requires cap >= 1
    ensures var end := Run(Init(cap), JumpPrefix(cap));
            && end.Some?
            && end.value.writeCount == cap + 1 && end.value.log == Ramp(0, cap + 2)
            && end.value.reader == Draining(1, 1, true, []) && |end.value.buffer| == cap
  {
    var s0, e1, e3 := Init(cap), Singles(0, cap + 1), Unpublished(cap + 1, 1);
    RunSingles(s0, 0, cap + 1);
    var s1 := Run(s0, e1).value;
    var s2 := Apply(s1, BeginRead(0, 1));
    assert [BeginRead(0, 1)][1..] == [] && Run(s1, [BeginRead(0, 1)]) == Run(s2, []);
    RunConcat(s0, e1, [BeginRead(0, 1)]);
    RunUnpublished(s2, cap + 1, 1);
    RunConcat(s0, e1 + [BeginRead(0, 1)], e3);
  }

  lemma JumpPrefixHolds(cap: nat)
    requires cap >= 1
    ensures BlocksAtMost(JumpPrefix(cap), 1) && Run(Init(cap), JumpPrefix(cap)).Some?
    ensures |Run(Init(cap), JumpPrefix(cap)).value.buffer| == cap
    ensures Run(Init(cap), JumpPrefix(cap)).value.buffer[1 % cap] == (cap + 1) as real
  {
    JumpPrefixRuns(cap);
    SinglesBlocks(0, cap + 1);
    InitInv(cap, 1);
    RunKeepsInv(Init(cap), JumpPrefix(cap), cap, 1);
    var s := Run(Init(cap), JumpPrefix(cap)).value;
    HeldSample(s.buffer, s.log, cap + 1);
    NextRound(cap);
  }

  /** There it has no slack at all: one more stored sample, published or not, replaces the one
      it is about to copy. */
  lemma JumpHasNoSlack(cap: nat) returns (es: seq<Event>, t: State)
    requires cap >= 1
    ensures BlocksAtMost(es, 1) && Run(Init(cap), es) == Some(t)
    ensures t.reader == Drained(1, 1, true, cap + 2, [(cap + 1) as real])
    ensures t.writeCount - t.reader.cursor == cap && !DrainExact(t)
  {
    JumpPrefixRuns(cap);
    JumpPrefixHolds(cap);
    var s := Run(Init(cap), JumpPrefix(cap)).value;
    DrainOverwrittenSlot(s, 1, true, (cap + 1) as real);
    RunConcat(Init(cap), JumpPrefix(cap), [CopySlot]);
    es, t := JumpPrefix(cap) + [CopySlot], s.(reader := Drained(1, 1, true, |s.log|, [(cap + 1) as real]));
  }

  lemma NextRound(cap: nat)
    requires cap >= 1
    ensures (cap + 1) % cap == 1 % cap
  {
    DivModUnique(1 + cap, cap, 1 / cap + 1, 1 % cap);
  }

  /** The exact slack: acceptance is sound for every run with blocks of at most B samples
      if and only if the test keeps B samples in reserve (or so many that nothing is ever
      accepted). The source keeps none, so its promise of a coherent window fails as soon
      as the writer writes at all. */
  lemma SlackIsExact(cap: nat, B: nat, slack: nat)
    requires cap >= 1
    ensures SlackSound(cap, B, slack) <==> slack >= B || slack >= cap
  {
    if slack >= B || slack >= cap {
      forall es, t |
        && Run(Init(cap), es) == Some(t) && BlocksAtMost(es, B)
        && t.reader.Accepted? && t.reader.reread - t.reader.start + slack <= cap
        ensures Exact(t)
      {
        InitInv(cap, B);
        RunKeepsInv(Init(cap), es, cap, B);
        if t.reader.before == 0 || slack >= B {
          AcceptedIsExact(t, cap, B);
        } else {
          assert t.reader.n == 0 && t.reader.copied == [];
        }
      }
    } else {
      var es := TornPrefix(cap, slack, Snapshot(1)) + [CopySlot, Reread];
      TornSnapshot(cap, slack, 1, B);
      assert !Exact(Run(Init(cap), es).value);
    }
  }
}
