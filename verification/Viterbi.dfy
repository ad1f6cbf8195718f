/** Log-space Viterbi (data_augment/_native_pyin/_viterbi.py), over the reals. */
module Viterbi {

  /** Observation scores by step and state, transition scores, initial scores. */
  datatype Problem = Problem(obs: seq<seq<real>>, trans: seq<seq<real>>, init: seq<real>) {
    ghost predicate WellFormed() {
      && |obs| >= 1 && |init| >= 1
      && (forall t | 0 <= t < |obs| :: |obs[t]| == |init|)
      && |trans| == |init| && (forall i | 0 <= i < |trans| :: |trans[i]| == |init|)
    }
  }

  ghost predicate IsPath(p: Problem, path: seq<nat>) {
    1 <= |path| <= |p.obs| && forall t | 0 <= t < |path| :: path[t] < |p.init|
  }

  /** The log-probability of following a path through its last step. */
  ghost function Score(p: Problem, path: seq<nat>): real
    requires p.WellFormed() && IsPath(p, path)
    decreases |path|
  {
    var t := |path| - 1;
    if t == 0 then p.obs[0][path[0]] + p.init[path[0]]
    else Score(p, path[..t]) + p.trans[path[t - 1]][path[t]] + p.obs[t][path[t]]
  }

  ghost predicate IsFirstMax(row: seq<real>, k: nat) {
    && k < |row|
    && (forall i | 0 <= i < |row| :: row[i] <= row[k])
    && (forall i | 0 <= i < k :: row[i] < row[k])
  }

  lemma FirstMaxIsFirst(row: seq<real>, k: nat, i: nat)
    requires IsFirstMax(row, k) && i < |row| && i != k && row[i] >= row[k]
    ensures k < i
  {
  }

  /** np.argmax: the first index of a largest value. */
  method ArgMax(row: seq<real>) returns (k: nat)
    requires |row| >= 1
    ensures IsFirstMax(row, k)
  {
    k := 0;
    for i := 1 to |row|
      invariant k < i
      invariant forall j | 0 <= j < i :: row[j] <= row[k]
      invariant forall j | 0 <= j < k :: row[j] < row[k]
    {
      if row[i] > row[k] {
        k := i;
      }
    }
  }

  // ---- The tables.

  /** k is the first best predecessor of state j at step t, given the row before, and v is
      what going through it scores. */
  ghost predicate BestEntry(p: Problem, before: seq<real>, t: nat, j: nat, k: nat, v: real)
    requires p.WellFormed() && t < |p.obs| && j < |p.init| && |before| == |p.init|
  {
    && k < |p.init|
    && v == p.obs[t][j] + (before[k] + p.trans[k][j])
    && (forall i: nat | i < |p.init| :: before[i] + p.trans[i][j] <= before[k] + p.trans[k][j])
    && (forall i: nat | i < k :: before[i] + p.trans[i][j] < before[k] + p.trans[k][j])
  }

  /** The two tables, row by row. */
  datatype Tables = Tables(value: seq<seq<real>>, ptr: seq<seq<nat>>) {
    ghost predicate Sized(p: Problem) {
      && |value| == |ptr| <= |p.obs|
      && forall t | 0 <= t < |value| :: |value[t]| == |ptr[t]| == |p.init|
    }

    ghost predicate Entry(p: Problem, t: nat, j: nat)
      requires p.WellFormed() && Sized(p) && t < |value| && j < |p.init|
    {
      if t == 0 then value[0][j] == p.obs[0][j] + p.init[j]
      else BestEntry(p, value[t - 1], t, j, ptr[t][j], value[t][j])
    }

    ghost predicate Filled(p: Problem)
      requires p.WellFormed()
    {
      Sized(p) && forall t: nat, j: nat | t < |value| && j < |p.init| :: Entry(p, t, j)
    }
  }

  /** value[t][j] bounds the score of every path of length t + 1 that ends in j. */
  lemma {:induction false} ValueIsUpperBound(p: Problem, tables: Tables, path: seq<nat>)
    requires p.WellFormed() && tables.Filled(p) && IsPath(p, path) && |path| <= |tables.value|
    ensures Score(p, path) <= tables.value[|path| - 1][path[|path| - 1]]
    decreases |path|
  {
    var t := |path| - 1;
    assert tables.Entry(p, t, path[t]);
    if t > 0 {
      ValueIsUpperBound(p, tables, path[..t]);
    }
  }

  /** A path that follows the pointers back from its last state. */
  ghost predicate FollowsPointers(p: Problem, tables: Tables, path: seq<nat>)
    requires IsPath(p, path) && tables.Sized(p) && |path| <= |tables.ptr|
  {
    forall t, u | 0 <= t && u == t + 1 < |path| :: path[t] == tables.ptr[u][path[u]]
  }

  /** ... and such a path attains the bound, so value[t][j] is the maximum. */
  lemma {:induction false} BacktraceAttainsValue(p: Problem, tables: Tables, path: seq<nat>)
    requires p.WellFormed() && tables.Filled(p) && IsPath(p, path) && |path| <= |tables.value|
    requires FollowsPointers(p, tables, path)
    ensures Score(p, path) == tables.value[|path| - 1][path[|path| - 1]]
    decreases |path|
  {
    var t := |path| - 1;
    assert tables.Entry(p, t, path[t]);
    if t > 0 {
      BacktraceAttainsValue(p, tables, path[..t]);
      assert path[t - 1] == tables.ptr[t][path[t]];
    }
  }

  /** Such a path exists for every entry: follow the pointers back. */
  lemma {:induction false} PointerPath(p: Problem, tables: Tables, t: nat, j: nat) returns (path: seq<nat>)
    requires p.WellFormed() && tables.Filled(p) && t < |tables.value| && j < |p.init|
    ensures IsPath(p, path) && |path| == t + 1 && path[t] == j && FollowsPointers(p, tables, path)
    decreases t
  {
    assert tables.Entry(p, t, j);
    if t == 0 {
      path := [j];
    } else {
      path := PointerPath(p, tables, t - 1, tables.ptr[t][j]);
      path := path + [j];
    }
  }

  /** value[t][j] is the score of the best path to state j at step t: one attains it and none
      exceeds it. */
  lemma ValueIsMaximum(p: Problem, tables: Tables, t: nat, j: nat) returns (best: seq<nat>)
    requires p.WellFormed() && tables.Filled(p) && t < |tables.value| && j < |p.init|
    ensures IsPath(p, best) && |best| == t + 1 && best[t] == j && Score(p, best) == tables.value[t][j]
    ensures forall path | IsPath(p, path) && |path| == t + 1 && path[t] == j :: Score(p, path) <= tables.value[t][j]
  {
    best := PointerPath(p, tables, t, j);
    BacktraceAttainsValue(p, tables, best);
    forall path | IsPath(p, path) && |path| == t + 1 && path[t] == j
      ensures Score(p, path) <= tables.value[t][j]
    {
      ValueIsUpperBound(p, tables, path);
    }
  }

  // ---- Which optimal path is returned.

  /** a wins the tie against b: at the last step where they differ a is in the lower state. */
  ghost predicate WinsTie(a: seq<nat>, b: seq<nat>) {
    |a| == |b| && exists t :: 0 <= t < |a| && a[t] < b[t] && a[t + 1..] == b[t + 1..]
  }

  /** What the last step of a path adds to its score. */
  ghost function LastGain(p: Problem, prev: nat, last: nat, t: nat): real
    requires p.WellFormed() && t < |p.obs| && prev < |p.init| && last < |p.init|
  {
    p.trans[prev][last] + p.obs[t][last]
  }

  lemma ScoreStep(p: Problem, a: seq<nat>)
    requires p.WellFormed() && IsPath(p, a) && |a| >= 2
    ensures IsPath(p, a[..|a| - 1])
    ensures Score(p, a) == Score(p, a[..|a| - 1]) + LastGain(p, a[|a| - 2], a[|a| - 1], |a| - 1)
  {
  }

  /** What a common tail adds does not depend on what came before it. */
  lemma {:induction false} SameTail(p: Problem, a: seq<nat>, b: seq<nat>, k: nat)
    requires p.WellFormed() && IsPath(p, a) && IsPath(p, b)
    requires |a| == |b| && k < |a| && forall i | k <= i < |a| :: a[i] == b[i]
    ensures Score(p, a) - Score(p, a[..k + 1]) == Score(p, b) - Score(p, b[..k + 1])
    decreases |a|
  {
    var n := |a| - 1;
    if k < n {
      ScoreStep(p, a);
      ScoreStep(p, b);
      assert a[n - 1] == b[n - 1] && a[n] == b[n];
      SameTail(p, a[..n], b[..n], k);
      PrefixOfPrefix(a, n, k + 1);
      PrefixOfPrefix(b, n, k + 1);
    } else {
      assert a[..k + 1] == a && b[..k + 1] == b;
    }
  }

  lemma PrefixOfPrefix(a: seq<nat>, n: nat, k: nat)
    requires k <= n <= |a|
    ensures a[..n][..k] == a[..k]
  {
  }

  lemma {:induction false} LastDifference(a: seq<nat>, b: seq<nat>) returns (t: nat)
    requires |a| == |b| && a != b
    ensures t < |a| && a[t] != b[t] && a[t + 1..] == b[t + 1..]
    decreases |a|
  {
    var n := |a| - 1;
    if a[n] != b[n] {
      t := n;
    } else {
      assert a == a[..n] + [a[n]] && b == b[..n] + [b[n]];
      t := LastDifference(a[..n], b[..n]);
      assert a[t + 1..] == a[..n][t + 1..] + [a[n]] && b[t + 1..] == b[..n][t + 1..] + [b[n]];
    }
  }

  /** Two optimal paths that agree after step t agree on the score up to step t + 1, so both
      predecessors are maximal there, and the back-pointer is the first of them. */
  lemma TieAtStep(p: Problem, tables: Tables, best: seq<nat>, path: seq<nat>, t: nat)
    requires p.WellFormed() && tables.Filled(p) && |tables.value| == |p.obs|
    requires IsPath(p, best) && IsPath(p, path) && |best| == |path| == |p.obs|
    requires FollowsPointers(p, tables, best) && Score(p, path) == Score(p, best)
    requires t + 1 < |best| && best[t] != path[t] && best[t + 1..] == path[t + 1..]
    ensures best[t] < path[t]
  {
    var a, b := best[..t + 2], path[..t + 2];
    SuffixesAgree(best, path, t + 1);
    SameTail(p, best, path, t + 1);
    BacktraceAttainsValue(p, tables, a);
    FirstPredecessor(p, tables, a, b, t);
  }

  lemma SuffixesAgree(a: seq<nat>, b: seq<nat>, k: nat)
    requires k <= |a| == |b| && a[k..] == b[k..]
    ensures forall i | k <= i < |a| :: a[i] == b[i]
  {
    forall i | k <= i < |a|
      ensures a[i] == b[i]
    {
      assert a[i] == a[k..][i - k] && b[i] == b[k..][i - k];
    }
  }

  /** A path that scores as much as the pointers' path into the same state comes from a
      predecessor no earlier than theirs. */
  lemma FirstPredecessor(p: Problem, tables: Tables, a: seq<nat>, b: seq<nat>, t: nat)
    requires p.WellFormed() && tables.Filled(p) && IsPath(p, a) && IsPath(p, b)
    requires |a| == |b| == t + 2 <= |tables.value| && a[t + 1] == b[t + 1] && a[t] != b[t]
    requires FollowsPointers(p, tables, a) && Score(p, b) == Score(p, a) == tables.value[t + 1][a[t + 1]]
    ensures a[t] < b[t]
  {
    ScoreStep(p, b);
    ValueIsUpperBound(p, tables, b[..t + 1]);
    assert tables.Entry(p, t + 1, b[t + 1]);
    assert a[t] == tables.ptr[t + 1][a[t + 1]];
  }

  /** Back-tracing from the first best final state beats every other path, and wins ties. */
  lemma BacktraceIsPreferred(p: Problem, tables: Tables, best: seq<nat>, path: seq<nat>)
    requires p.WellFormed() && tables.Filled(p) && |tables.value| == |p.obs|
    requires IsPath(p, best) && IsPath(p, path) && |best| == |path| == |p.obs|
    requires FollowsPointers(p, tables, best)
    requires IsFirstMax(tables.value[|best| - 1], best[|best| - 1])
    ensures Score(p, path) <= Score(p, best)
    ensures path != best && Score(p, path) == Score(p, best) ==> WinsTie(best, path)
  {
    ValueIsUpperBound(p, tables, path);
    BacktraceAttainsValue(p, tables, best);
    if path != best && Score(p, path) == Score(p, best) {
      BacktraceWinsTie(p, tables, best, path);
    }
  }

  lemma BacktraceWinsTie(p: Problem, tables: Tables, best: seq<nat>, path: seq<nat>)
    requires p.WellFormed() && tables.Filled(p) && |tables.value| == |p.obs|
    requires IsPath(p, best) && IsPath(p, path) && |best| == |path| == |p.obs|
    requires FollowsPointers(p, tables, best)
    requires IsFirstMax(tables.value[|best| - 1], best[|best| - 1])
    requires path != best && Score(p, path) == Score(p, best)
    ensures WinsTie(best, path)
  {
    var n := |best| - 1;
    var t := LastDifference(best, path);
    if t < n {
      TieAtStep(p, tables, best, path, t);
    } else {
      ValueIsUpperBound(p, tables, path);
      BacktraceAttainsValue(p, tables, best);
      FirstMaxIsFirst(tables.value[n], best[n], path[n]);
    }
  }

  // ---- The method.

  /** The most probable state path, and among equally probable ones the one that wins all
      ties. Zero steps or zero states make the source index an empty array. */
  method ViterbiLog(p: Problem) returns (state: array<nat>)
    requires p.WellFormed()
    ensures IsPath(p, state[..]) && state.Length == |p.obs|
    ensures forall path | IsPath(p, path) && |path| == |p.obs| ::
              && Score(p, path) <= Score(p, state[..])
              && (path != state[..] && Score(p, path) == Score(p, state[..]) ==> WinsTie(state[..], path))
  {
    var nSteps := |p.obs|;
    var tables := FillTables(p);
    state := new nat[nSteps];
    state[nSteps - 1] := ArgMax(tables.value[nSteps - 1]);
    ghost var last := state[nSteps - 1];
    for t := nSteps - 1 downto 0
      invariant forall u | t <= u < nSteps :: state[u] < |p.init|
      invariant forall u, v | t <= u && v == u + 1 < nSteps :: state[u] == tables.ptr[v][state[v]]
      invariant state[nSteps - 1] == last
    {
      assert tables.Entry(p, t + 1, state[t + 1]);
      state[t] := tables.ptr[t + 1][state[t + 1]];
    }
    ghost var best := state[..];
    forall path | IsPath(p, path) && |path| == |p.obs|
      ensures Score(p, path) <= Score(p, best)
      ensures path != best && Score(p, path) == Score(p, best) ==> WinsTie(best, path)
    {
      BacktraceIsPreferred(p, tables, best, path);
    }
  }

  /** The forward pass: rows are appended step by step. */
  method FillTables(p: Problem) returns (tables: Tables)
    requires p.WellFormed()
    ensures tables.Filled(p) && |tables.value| == |p.obs|
  {
    var first: seq<real> := [];
    for j := 0 to |p.init|
      invariant |first| == j && forall i | 0 <= i < j :: first[i] == p.obs[0][i] + p.init[i]
    {
      first := first + [p.obs[0][j] + p.init[j]];
    }
    tables := Tables([first], [seq(|p.init|, j => 0)]);
    for t := 1 to |p.obs|
      invariant tables.Filled(p) && |tables.value| == t
    {
      var row, back := FillRow(p, tables.value[t - 1], t);
      ghost var before := tables;
      tables := Tables(tables.value + [row], tables.ptr + [back]);
      forall u: nat, j: nat | u < t + 1 && j < |p.init|
        ensures tables.Entry(p, u, j)
      {
        if u < t {
          assert before.Entry(p, u, j);
        }
      }
    }
  }

  /** One step: trans_out for every state, its first maximum and the value through it. */
  method FillRow(p: Problem, before: seq<real>, t: nat) returns (row: seq<real>, back: seq<nat>)
    requires p.WellFormed() && 1 <= t < |p.obs| && |before| == |p.init|
    ensures |row| == |back| == |p.init|
    ensures forall j | 0 <= j < |p.init| :: BestEntry(p, before, t, j, back[j], row[j])
  {
    row, back := [], [];
    for j := 0 to |p.init|
      invariant |row| == |back| == j
      invariant forall i | 0 <= i < j :: BestEntry(p, before, t, i, back[i], row[i])
    {
      var transOut := seq(|p.init|, i requires 0 <= i < |p.init| => before[i] + p.trans[i][j]);
      assert forall i: nat | i < |p.init| :: transOut[i] == before[i] + p.trans[i][j];
      var k := ArgMax(transOut);
      row := row + [p.obs[t][j] + transOut[k]];
      back := back + [k];
    }
  }
}
