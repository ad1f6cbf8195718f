/** The lock-free ring (cpp_impl/src/linkjiru/SharedRingBuffer.h).

    First the object as its single-threaded owner sees it, then the same code as the
    micro-steps of one writer and one reader, in any interleaving. The log is every sample
    ever stored, published or not; capacity is a parameter. */
module SharedRing {
  import opened Sums

  /** The ring holds the newest |buffer| logged samples, each in its slot. */
  ghost predicate Holds(buffer: seq<real>, log: seq<real>) {
    forall a: nat | |log| - |buffer| <= a < |log| && |buffer| > 0 :: buffer[a % |buffer|] == log[a]
  }

  /** Two different indices less than a capacity apart never share a slot. */
  lemma SlotsDistinct(cap: nat, a: nat, b: nat)
    requires a < b < a + cap
    ensures a % cap != b % cap
  {
    var q, r := a / cap, a % cap + (b - a);
    assert b == q * cap + r;
    if r < cap {
      DivModUnique(b, cap, q, r);
    } else {
      DivModUnique(b, cap, q + 1, r - cap);
    }
  }

  lemma StoreKeepsHolds(buffer: seq<real>, log: seq<real>, x: real)
    requires |buffer| > 0 && Holds(buffer, log)
    ensures Holds(buffer[|log| % |buffer| := x], log + [x])
  {
    var cap := |buffer|;
    var after := buffer[|log| % cap := x];
    forall a: nat | |log| + 1 - cap <= a < |log| + 1
      ensures after[a % cap] == (log + [x])[a]
    {
      if a < |log| {
        SlotsDistinct(cap, a, |log|);
      }
    }
  }

  function Zeros(n: nat): (s: seq<real>)
    ensures |s| == n && forall i | 0 <= i < n :: s[i] == 0.0
  {
    seq(n, i => 0.0)
  }

  /** The newest n samples of the log, right-aligned behind zeros. */
  function LastN(log: seq<real>, n: nat): (s: seq<real>)
    ensures |s| == n
  {
    if |log| >= n then log[|log| - n..] else Zeros(n - |log|) + log
  }

  lemma Aligned(whole: seq<real>, padding: seq<real>, newest: seq<real>, rest: seq<real>, m: nat)
    requires whole == padding + newest + rest && |padding| + |newest| == m
    ensures whole[..m] == padding + newest && whole[m..] == rest
  {
  }

  lemma HeldSample(buffer: seq<real>, log: seq<real>, k: nat)
    requires |buffer| > 0 && Holds(buffer, log) && |log| - |buffer| <= k < |log|
    ensures buffer[k % |buffer|] == log[k]
  {
  }

  /** One more sample of a stretch of the log. */
  lemma StretchGrows(log: seq<real>, start: nat, i: nat)
    requires start + i < |log|
    ensures log[start..start + i + 1] == log[start..start + i] + [log[start + i]]
  {
  }

  class SharedRingBuffer {
    const capacity: nat
    const buffer: array<real>
    var writeCount: nat
    ghost var log: seq<real>

    ghost predicate Valid()
      reads this, buffer
    {
      && capacity >= 1 && buffer.Length == capacity
      && writeCount == |log|
      && Holds(buffer[..], log)
    }

    constructor (cap: nat)
      requires cap >= 1
      ensures Valid() && capacity == cap && log == [] && fresh(buffer)
    {
      capacity := cap;
      buffer := new real[cap](_ => 0.0);
      writeCount, log := 0, [];
    }

    /** Any number of samples, even more than fit: the count advances by all of them. */
    method Write(data: array<real>, numSamples: nat)
      requires Valid() && numSamples <= data.Length && data != buffer
      modifies this, buffer
      ensures Valid() && log == old(log) + data[..numSamples]
    {
      var pos := writeCount;
      for i := 0 to numSamples
        invariant writeCount == pos && log == old(log) + data[..i]
        invariant Holds(buffer[..], log)
      {
        StoreKeepsHolds(buffer[..], log, data[i]);
        ghost var before := buffer[..];
        buffer[(pos + i) % capacity] := data[i];
        assert buffer[..] == before[|log| % capacity := data[i]];
        log := log + [data[i]];
      }
      writeCount := pos + numSamples;
    }

    method CopyOut(dest: array<real>, offset: nat, start: nat, count: nat)
      requires Valid() && offset + count <= dest.Length && dest != buffer
      requires writeCount <= start + capacity && start + count <= writeCount
      modifies dest
      ensures dest[..] == old(dest[..offset]) + log[start..start + count] + old(dest[offset + count..])
    {
      for i := 0 to count
        invariant dest[..offset] == old(dest[..offset]) && dest[offset + count..] == old(dest[offset + count..])
        invariant dest[offset..offset + i] == log[start..start + i]
      {
        HeldSample(buffer[..], log, start + i);
        StretchGrows(log, start, i);
        var x := buffer[(start + i) % capacity];
        assert x == log[start + i];
        dest[offset + i] := x;
      }
      assert dest[..] == dest[..offset] + dest[offset..offset + count] + dest[offset + count..];
    }

    /** One attempt's copy: zeros where nothing was ever written, then the newest samples. */
    method CopyNewest(dest: array<real>, m: nat)
      requires Valid() && m <= capacity && m <= dest.Length && dest != buffer
      modifies dest
      ensures dest[..m] == LastN(log, m) && dest[m..] == old(dest[m..])
    {
      var before := writeCount;
      var start, toRead := 0, before;
      if before >= m {
        start, toRead := before - m, m;
      } else {
        FillZero(dest, m - toRead);
      }
      ghost var padding := dest[..m - toRead];
      assert padding == Zeros(m - toRead);
      CopyOut(dest, m - toRead, start, toRead);
      Aligned(dest[..], padding, log[start..start + toRead], old(dest[m..]), m);
    }

    /** With no writer running alongside, the re-read of the counter always passes, so the
        first attempt is the only one; retries belong to the interleaved model. */
    method ReadLastN(dest: array<real>, n: nat, maxRetries: nat) returns (ok: bool)
      requires Valid() && n <= dest.Length && dest != buffer
      modifies dest
      ensures ok <==> maxRetries > 0
      ensures var m := if n > capacity then capacity else n;
              if ok then dest[..m] == LastN(log, m) && dest[m..] == old(dest[m..])
              else dest[..] == old(dest[..])
    {
      var m := if n > capacity then capacity else n;
      if maxRetries == 0 {
        return false;
      }
      var before := writeCount;
      if before == 0 {
        FillZero(dest, m);
        return true;
      }
      CopyNewest(dest, m);
      return writeCount - (if before >= m then before - m else 0) <= capacity;
    }

    method FillZero(dest: array<real>, n: nat)
      requires n <= dest.Length
      modifies dest
      ensures dest[..n] == Zeros(n) && dest[n..] == old(dest[n..])
    {
      for i := 0 to n
        invariant dest[..i] == Zeros(i) && dest[n..] == old(dest[n..])
      {
        dest[i] := 0.0;
      }
    }

    /** Cursor read: what fits of everything published since the cursor, after jumping a
        cursor that has fallen more than a capacity behind to the oldest live sample. */
    method Read(dest: array<real>, maxSamples: nat, cursor: nat)
      returns (samplesRead: nat, overrun: bool, cursor': nat)
      requires Valid() && maxSamples <= dest.Length && dest != buffer && cursor <= writeCount
      modifies dest
      ensures overrun <==> |log| > cursor + capacity
      ensures var from := if overrun then |log| - capacity else cursor;
              && samplesRead == (if |log| - from < maxSamples then |log| - from else maxSamples)
              && cursor' == from + samplesRead
              && dest[..] == log[from..cursor'] + old(dest[samplesRead..])
    {
      var currentWrite := writeCount;
      cursor', overrun := cursor, false;
      if currentWrite > cursor' + capacity {
        cursor' := currentWrite - capacity;
        overrun := true;
      }
      var available := currentWrite - cursor';
      samplesRead := if available < maxSamples then available else maxSamples;
      CopyOut(dest, 0, cursor', samplesRead);
      cursor' := cursor' + samplesRead;
    }
  }
}
