/** Index arithmetic of the training set (python/nn_model/src/nn_model/dataset.py): steps of all
    files laid end to end, and the audio segment that belongs to a step. */
module Dataset {
  import opened Sums

  /** One more than ceil((size - win) / hop). */
  function StepCount(size: int, win: int, hop: nat): int
    requires hop >= 1
  {
    var span := size - win;
    (if span % hop == 0 then span / hop else span / hop + 1) + 1
  }

  /** step_offsets: where each file's steps begin. */
  function Offset(steps: seq<int>, file: nat): int
    requires file <= |steps|
  {
    if file == 0 then 0 else Offset(steps, file - 1) + steps[file - 1]
  }

  /** bisect_right: how many offsets are at most index. */
  function BisectRight(offsets: seq<int>, index: int, lo: nat, hi: nat): (b: nat)
    requires lo <= hi <= |offsets|
    ensures lo <= b <= hi
    decreases hi - lo
  {
    if lo >= hi then lo
    else
      var mid := (lo + hi) / 2;
      if index < offsets[mid] then BisectRight(offsets, index, lo, mid) else BisectRight(offsets, index, mid + 1, hi)
  }

  ghost predicate Ascending(s: seq<int>) {
    forall i, j | 0 <= i < j < |s| :: s[i] <= s[j]
  }

  /** Of ascending offsets it splits those at most index from those above. */
  lemma {:induction false} BisectSplits(offsets: seq<int>, index: int, lo: nat, hi: nat)
    requires Ascending(offsets) && lo <= hi <= |offsets|
    requires forall i | 0 <= i < lo :: offsets[i] <= index
    requires forall i | hi <= i < |offsets| :: offsets[i] > index
    ensures var b := BisectRight(offsets, index, lo, hi);
            && (forall i | 0 <= i < b :: offsets[i] <= index)
            && (forall i | b <= i < |offsets| :: offsets[i] > index)
    decreases hi - lo
  {
    if lo < hi {
      var mid := (lo + hi) / 2;
      if index < offsets[mid] {
        BisectSplits(offsets, index, lo, mid);
      } else {
        BisectSplits(offsets, index, mid + 1, hi);
      }
    }
  }

  /** The loop of the constructor. */
  method BuildOffsets(steps: seq<int>) returns (offsets: seq<int>, total: int)
    ensures |offsets| == |steps| && total == Offset(steps, |steps|)
    ensures forall i | 0 <= i < |steps| :: offsets[i] == Offset(steps, i)
  {
    offsets, total := [], 0;
    for i := 0 to |steps|
      invariant |offsets| == i && total == Offset(steps, i)
      invariant forall j | 0 <= j < i :: offsets[j] == Offset(steps, j)
    {
      offsets := offsets + [total];
      total := total + steps[i];
    }
  }

  function Offsets(steps: seq<int>): (offsets: seq<int>)
    ensures |offsets| == |steps|
  {
    seq(|steps|, i requires 0 <= i < |steps| => Offset(steps, i))
  }

  datatype Step = Step(file: int, step: int)

  /** The file and the step within it of a dataset index. */
  function Locate(steps: seq<int>, index: int): Step
    requires steps != []
  {
    var offsets := Offsets(steps);
    var b := BisectRight(offsets, index, 0, |offsets|) - 1;
    var file := if b > 0 then b else 0;
    Step(file, index - offsets[file])
  }

  lemma {:induction false} OffsetsAscend(steps: seq<int>, i: nat, j: nat)
    requires (forall s | s in steps :: s >= 0) && i <= j <= |steps|
    ensures Offset(steps, i) <= Offset(steps, j)
    ensures i < j ==> Offset(steps, i) + steps[i] <= Offset(steps, j)
    decreases j
  {
    if i < j {
      assert steps[j - 1] in steps;
      OffsetsAscend(steps, i, j - 1);
    }
  }

  /** Every index below the total is one step of one file, */
  lemma LocateIsInFile(steps: seq<int>, index: nat)
    requires (forall s | s in steps :: s >= 0) && index < Offset(steps, |steps|)
    ensures steps != [] && var l := Locate(steps, index);
            && 0 <= l.file < |steps| && 0 <= l.step < steps[l.file]
            && Offset(steps, l.file) + l.step == index
  {
    var offsets := Offsets(steps);
    forall i, j | 0 <= i < j < |offsets|
      ensures offsets[i] <= offsets[j]
    {
      OffsetsAscend(steps, i, j);
    }
    BisectSplits(offsets, index, 0, |offsets|);
    var b := BisectRight(offsets, index, 0, |offsets|);
    assert offsets[0] == 0;
    assert b < |steps| ==> index < offsets[b] == Offset(steps, b);
    assert Offset(steps, b) == Offset(steps, b - 1) + steps[b - 1];
  }

  /** and every step of every file is found at its own index: the two are inverse. */
  lemma LocateFindsStep(steps: seq<int>, file: nat, step: nat)
    requires (forall s | s in steps :: s >= 0) && file < |steps| && step < steps[file]
    ensures Locate(steps, Offset(steps, file) + step) == Step(file, step)
    ensures Offset(steps, file) + step < Offset(steps, |steps|)
  {
    var index := Offset(steps, file) + step;
    OffsetsAscend(steps, file, |steps|);
    OffsetsAscend(steps, 0, file);
    LocateIsInFile(steps, index);
    var l := Locate(steps, index);
    if l.file < file {
      OffsetsAscend(steps, l.file, file);
    } else if l.file > file {
      OffsetsAscend(steps, file, l.file);
    }
  }

  // ---- Segments.

  /** _end_element: one past the last sample of a step; the last step ends with the file. */
  function EndElement(size: int, win: int, hop: nat, step: int): int
    requires hop >= 1
  {
    size - (StepCount(size, win, hop) - (step + 1)) * hop
  }

  /** The steps of a file are a hop apart, the last ends with the file and the first within a
      hop of the first whole window. */
  lemma StepsCoverTheFile(size: int, win: int, hop: nat, step: int)
    requires hop >= 1
    ensures EndElement(size, win, hop, StepCount(size, win, hop) - 1) == size
    ensures EndElement(size, win, hop, step + 1) == EndElement(size, win, hop, step) + hop
    ensures win - hop < EndElement(size, win, hop, 0) <= win
  {
    var n := StepCount(size, win, hop);
    var span := size - win;
    Distributes(n - (step + 1), n - (step + 2), hop);
    LastSteps(span, hop, n - 1);
  }

  lemma Distributes(a: int, b: int, c: int)
    requires a == b + 1
    ensures a * c == b * c + c
  {
  }

  lemma LastSteps(span: int, hop: nat, n: int)
    requires hop >= 1 && n == if span % hop == 0 then span / hop else span / hop + 1
    ensures span <= n * hop < span + hop
  {
    var q, r := span / hop, span % hop;
    assert span == q * hop + r;
    if r != 0 {
      Distributes(n, q, hop);
    }
  }

  /** A file has a step to offer exactly when it is longer than a window less a hop; one that
      is two hops short makes the offsets run backwards. */
  lemma StepsArePositiveExactly(size: int, win: int, hop: nat)
    requires hop >= 1
    ensures StepCount(size, win, hop) >= 1 <==> size > win - hop
    ensures StepCount(size, win, hop) >= 0 <==> size > win - 2 * hop
  {
    var n := StepCount(size, win, hop) - 1;
    LastSteps(size - win, hop, n);
    if n >= 0 {
      MulMono(0, n, hop);
    } else if n == -1 {
      assert n * hop + hop == 0;
    } else {
      MulMono(n, -2, hop);
      assert -2 * hop == -(2 * hop);
    }
  }

  /** Where the first step of a file ends: the window, less what the hops overshoot. */
  lemma FirstEndElement(size: int, win: int, hop: nat)
    requires hop >= 1
    ensures EndElement(size, win, hop, 0) == win - (win - size) % hop
  {
    var n := StepCount(size, win, hop) - 1;
    LastSteps(size - win, hop, n);
    DivModUnique(win - size, hop, -n, win - size + n * hop);
  }

  /** A step's end is that many hops on. */
  lemma EndElementAdds(size: int, win: int, hop: nat, step: nat)
    requires hop >= 1
    ensures EndElement(size, win, hop, step) == EndElement(size, win, hop, 0) + step * hop
  {
    var n := StepCount(size, win, hop);
    assert (n - 1) * hop == (n - (step + 1)) * hop + step * hop;
  }

  /** The end elements of a file's steps never pass its end, and they are all in the file if
      and only if the first is. */
  lemma EndElementsInFile(size: int, win: int, hop: nat)
    requires hop >= 1 && StepCount(size, win, hop) >= 1
    ensures forall step: nat | step < StepCount(size, win, hop) :: EndElement(size, win, hop, step) <= size
    ensures (forall step: nat | step < StepCount(size, win, hop) :: 0 <= EndElement(size, win, hop, step))
            <==> (win - size) % hop <= win
  {
    FirstEndElement(size, win, hop);
    forall step: nat | step < StepCount(size, win, hop)
      ensures EndElement(size, win, hop, 0) <= EndElement(size, win, hop, step) <= size
    {
      EndElementAdds(size, win, hop, step);
      MulNonNegative(step, hop);
      MulNonNegative(StepCount(size, win, hop) - (step + 1), hop);
    }
  }

  /** The number of steps of every file, and the row of scores that belongs to an end element:
      half a window before it. */
  function Steps(sizes: seq<int>, win: int, hop: nat): (steps: seq<int>)
    requires hop >= 1
    ensures |steps| == |sizes|
  {
    seq(|sizes|, i requires 0 <= i < |sizes| => StepCount(sizes[i], win, hop))
  }

  function ScoreRow(endEl: int, win: nat): int {
    endEl - win / 2
  }

  /** __getitem__ of any index below the total: the segment ends inside its file whenever hops
      are at most one longer than windows, and its score row is a row of the file (or before
      its start, where zeros are returned) for windows of two samples or more. */
  lemma ItemIsInRange(sizes: seq<int>, win: nat, hop: nat, index: nat)
    requires hop >= 1 && forall size | size in sizes :: StepCount(size, win, hop) >= 0
    requires index < Offset(Steps(sizes, win, hop), |sizes|)
    ensures sizes != [] && var l := Locate(Steps(sizes, win, hop), index);
            && 0 <= l.file < |sizes|
            && var size, endEl := sizes[l.file], EndElement(sizes[l.file], win, hop, l.step);
               && endEl <= size
               && (hop <= win + 1 ==> endEl >= 0)
               && (win >= 2 ==> ScoreRow(endEl, win) < size)
  {
    var steps := Steps(sizes, win, hop);
    forall s | s in steps
      ensures s >= 0
    {
      var i :| 0 <= i < |steps| && steps[i] == s;
      assert sizes[i] in sizes;
    }
    LocateIsInFile(steps, index);
    var l := Locate(steps, index);
    EndElementsInFile(sizes[l.file], win, hop);
  }

  /** Longer hops can put a segment's end before its file: 5 samples, windows of 2, hops of 9. */
  lemma LongHopsLeaveTheFile()
    ensures StepCount(5, 2, 9) == 2 && EndElement(5, 2, 9, 0) == -4
  {
  }

  /** A window of one sample asks for the row after the last. */
  lemma ShortWindowsPassTheEnd(size: int, win: nat, hop: nat)
    requires hop >= 1 && StepCount(size, win, hop) >= 1
    ensures ScoreRow(EndElement(size, win, hop, StepCount(size, win, hop) - 1), win) >= size <==> win <= 1
  {
    StepsCoverTheFile(size, win, hop, 0);
  }

  /** _make_audio: the samples up to endEl, right-aligned behind zeros. */
  method MakeAudio(audio: seq<real>, endEl: nat, segLength: nat, mult: real) returns (seg: array<real>)
    requires endEl <= |audio|
    ensures fresh(seg) && seg.Length == segLength
    ensures forall i | 0 <= i < segLength ::
              seg[i] == if endEl - segLength + i >= 0 then audio[endEl - segLength + i] * mult else 0.0
  {
    seg := new real[segLength](_ => 0.0);
    var copyOffset := if endEl < segLength then segLength - endEl else 0;
    for i := copyOffset to segLength
      invariant forall j | 0 <= j < segLength ::
                  seg[j] == if copyOffset <= j < i then audio[endEl - segLength + j] else 0.0
    {
      seg[i] := audio[endEl - segLength + i];
    }
    for i := 0 to segLength
      invariant forall j | 0 <= j < segLength ::
                  seg[j] == if j < copyOffset then 0.0
                            else if j < i then audio[endEl - segLength + j] * mult
                            else audio[endEl - segLength + j]
    {
      seg[i] := seg[i] * mult;
    }
  }
}
