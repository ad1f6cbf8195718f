/** Checkpoint retention (python/nn_model/src/nn_model/trainer.py, CheckpointManager): the
    newest few and the best few, and the files that hold them. */
module Checkpoints {
  import opened Basics

  datatype Path = LastCheckpoint(epoch: int) | BestCheckpoint(epoch: int, score: string)

  datatype Entry = Entry(score: real, path: Path)

  datatype Store<T> = Store(last: seq<Path>, best: seq<Entry>, files: map<Path, T>)

  /** One call of save(): what was saved when, with which score. */
  datatype Saved<T> = Saved(epoch: int, score: real, state: T)

  // ---- The newest.

  /** pop() and remove until no more than `keep` are listed. */
  function Trim<T>(last: seq<Path>, files: map<Path, T>, keep: nat): (seq<Path>, map<Path, T>)
    decreases |last|
  {
    if |last| <= keep then (last, files)
    else Trim(last[..|last| - 1], files - {last[|last| - 1]}, keep)
  }

  /** What trimming keeps: the first `keep`, and every file but those of the rest. */
  lemma {:induction false} TrimKeepsTheFirst<T>(last: seq<Path>, files: map<Path, T>, keep: nat)
    ensures Trim(last, files, keep).0 == if |last| <= keep then last else last[..keep]
    ensures Trim(last, files, keep).1 == if |last| <= keep then files else files - (set p | p in last[keep..])
    decreases |last|
  {
    if |last| > keep {
      var n := |last| - 1;
      TrimKeepsTheFirst(last[..n], files - {last[n]}, keep);
      if n > keep {
        assert last[..n][keep..] + [last[n]] == last[keep..];
      } else {
        assert last[keep..] == [last[n]];
      }
    }
  }

  function SaveLast<T>(s: Store<T>, epoch: int, state: T, keep: nat): Store<T> {
    var path := LastCheckpoint(epoch);
    var (last, files) := Trim([path] + s.last, s.files[path := state], keep);
    s.(last := last, files := files)
  }

  /** A checkpoint survives its own save exactly when its path is not among those trimmed, so
      saving an epoch again can delete the file just written while still listing it. */
  lemma NewestSurvivesExactly<T>(s: Store<T>, epoch: int, state: T, keep: nat)
    requires keep >= 1
    ensures var t := SaveLast(s, epoch, state, keep);
            && t.last != [] && t.last[0] == LastCheckpoint(epoch)
            && (LastCheckpoint(epoch) in t.files <==> |s.last| < keep || LastCheckpoint(epoch) !in s.last[keep - 1..])
  {
    var path := LastCheckpoint(epoch);
    TrimKeepsTheFirst([path] + s.last, s.files[path := state], keep);
    if |s.last| >= keep {
      assert ([path] + s.last)[keep..] == s.last[keep - 1..];
    }
  }

  // ---- The best.

  ghost predicate IsWorst(best: seq<Entry>, w: int) {
    0 <= w < |best| && forall j | 0 <= j < |best| :: best[j].score <= best[w].score
  }

  /** save_best(): push while there is room, else replace a worst entry by a better one. Which
      of several equally bad ones goes is left open. */
  ghost predicate SavesBest<T>(s: Store<T>, e: Entry, state: T, keep: nat, t: Store<T>) {
    if |s.best| < keep then t == s.(best := s.best + [e], files := s.files[e.path := state])
    else exists w | IsWorst(s.best, w) :: t == Replaced(s, e, state, w)
  }

  /** The new entry takes the place of entry w if its score is lower. */
  function Replaced<T>(s: Store<T>, e: Entry, state: T, w: int): Store<T>
    requires 0 <= w < |s.best|
  {
    if e.score < s.best[w].score
    then s.(best := s.best[w := e], files := s.files[e.path := state] - {s.best[w].path})
    else s
  }

  /** One save(): the newest first, then the best. */
  ghost predicate SaveStep<T>(s: Store<T>, h: Saved<T>, t: Store<T>, keepLast: nat, keepBest: nat,
                              format: real -> string) {
    SavesBest(SaveLast(s, h.epoch, h.state, keepLast), EntryOf(h, format), h.state, keepBest, t)
  }

  // ---- What the store retains of a whole history.

  function EntryOf<T>(h: Saved<T>, format: real -> string): Entry {
    Entry(h.score, BestCheckpoint(h.epoch, format(h.score)))
  }

  ghost predicate DistinctEpochs<T>(history: seq<Saved<T>>) {
    forall i, j | 0 <= i < j < |history| :: history[i].epoch != history[j].epoch
  }

  /** The newest min(n, keep) epochs, newest first. */
  function Newest<T>(history: seq<Saved<T>>, keep: nat): seq<Path> {
    seq(Min(|history|, keep), i requires 0 <= i < Min(|history|, keep) =>
      LastCheckpoint(history[|history| - 1 - i].epoch))
  }

  function Scores(best: seq<Entry>): (scores: seq<real>)
    ensures |scores| == |best|
  {
    seq(|best|, j requires 0 <= j < |best| => best[j].score)
  }

  function AllScores<T>(history: seq<Saved<T>>): (scores: seq<real>)
    ensures |scores| == |history|
  {
    seq(|history|, i requires 0 <= i < |history| => history[i].score)
  }

  /** The scores in `best` are the lowest min(n, keep) of the whole history: together with the
      dropped ones they are all of them, and no dropped score is below a kept one. */
  ghost predicate HoldsLowest<T>(history: seq<Saved<T>>, best: seq<Entry>, dropped: multiset<real>, keep: nat) {
    && |best| == Min(|history|, keep)
    && multiset(AllScores(history)) == multiset(Scores(best)) + dropped
    && forall j, d | 0 <= j < |best| && d in dropped :: best[j].score <= d
  }

  lemma LowestAfterPush<T>(history: seq<Saved<T>>, h: Saved<T>, best: seq<Entry>, e: Entry,
                           dropped: multiset<real>, keep: nat)
    requires HoldsLowest(history, best, dropped, keep) && |best| < keep && e.score == h.score
    ensures HoldsLowest(history + [h], best + [e], dropped, keep)
  {
    assert |multiset(AllScores(history))| == |history| && |multiset(Scores(best))| == |best|;
    assert dropped == multiset{};
    assert AllScores(history + [h]) == AllScores(history) + [h.score];
    assert Scores(best + [e]) == Scores(best) + [e.score];
  }

  lemma LowestAfterReplace<T>(history: seq<Saved<T>>, h: Saved<T>, best: seq<Entry>, e: Entry, w: nat,
                              dropped: multiset<real>, keep: nat)
    requires HoldsLowest(history, best, dropped, keep) && |best| == keep && e.score == h.score
    requires IsWorst(best, w) && e.score < best[w].score
    ensures HoldsLowest(history + [h], best[w := e], dropped + multiset{best[w].score}, keep)
  {
    var scores := Scores(best);
    assert AllScores(history + [h]) == AllScores(history) + [h.score];
    assert Scores(best[w := e]) == scores[w := e.score];
    assert multiset(scores[w := e.score]) == multiset(scores) - multiset{scores[w]} + multiset{e.score};
    assert scores[w] in multiset(scores);
  }

  lemma LowestAfterSkip<T>(history: seq<Saved<T>>, h: Saved<T>, best: seq<Entry>, w: nat,
                           dropped: multiset<real>, keep: nat)
    requires HoldsLowest(history, best, dropped, keep) && |best| == keep
    requires IsWorst(best, w) && h.score >= best[w].score
    ensures HoldsLowest(history + [h], best, dropped + multiset{h.score}, keep)
  {
    assert AllScores(history + [h]) == AllScores(history) + [h.score];
  }

  // ---- Files.

  function LastPaths(last: seq<Path>): set<Path> {
    set p | p in last
  }

  function BestPaths(best: seq<Entry>): set<Path> {
    set e | e in best :: e.path
  }

  ghost predicate Distinct<A>(s: seq<A>) {
    forall i, j | 0 <= i < j < |s| :: s[i] != s[j]
  }

  ghost predicate DistinctPaths(best: seq<Entry>) {
    forall i, j | 0 <= i < j < |best| :: best[i].path != best[j].path
  }

  /** Every listed checkpoint is one of the saves. */
  ghost predicate Traced<T>(history: seq<Saved<T>>, s: Store<T>, format: real -> string) {
    && (forall p | p in s.last :: exists i | 0 <= i < |history| :: p == LastCheckpoint(history[i].epoch))
    && (forall e | e in s.best :: exists i | 0 <= i < |history| :: e == EntryOf(history[i], format))
  }

  /** A file was written by a save, under one of its two names. */
  ghost predicate Written<T>(history: seq<Saved<T>>, p: Path, state: T, format: real -> string) {
    exists i | 0 <= i < |history| ::
      && state == history[i].state
      && (p == LastCheckpoint(history[i].epoch) || p == EntryOf(history[i], format).path)
  }

  /** Exactly the listed files exist, each with the contents of its save. */
  ghost predicate FilesMatch<T>(history: seq<Saved<T>>, s: Store<T>, format: real -> string) {
    && s.files.Keys == LastPaths(s.last) + BestPaths(s.best)
    && forall p | p in s.files :: Written(history, p, s.files[p], format)
  }

  lemma DropTail(listed: seq<Path>, keep: nat)
    requires Distinct(listed) && keep <= |listed|
    ensures LastPaths(listed) - LastPaths(listed[keep..]) == LastPaths(listed[..keep])
  {
    assert listed == listed[..keep] + listed[keep..];
  }

  lemma ReplacePath(best: seq<Entry>, w: nat, e: Entry)
    requires w < |best| && DistinctPaths(best) && e.path !in BestPaths(best)
    ensures BestPaths(best[w := e]) == BestPaths(best) - {best[w].path} + {e.path}
    ensures DistinctPaths(best[w := e])
  {
    var t := best[w := e];
    forall i | 0 <= i < |best|
      ensures best[i].path in BestPaths(best)
      ensures i != w ==> best[i].path in BestPaths(t)
    {
      assert best[i] in best;
      assert t[i] in t;
    }
    assert t[w] in t;
    forall p | p in BestPaths(t)
      ensures p in BestPaths(best) - {best[w].path} + {e.path}
    {
      var x :| x in t && x.path == p;
      var i :| 0 <= i < |t| && t[i] == x;
    }
    forall p | p in BestPaths(best) - {best[w].path}
      ensures p in BestPaths(t)
    {
      var x :| x in best && x.path == p;
      var i :| 0 <= i < |best| && best[i] == x;
    }
  }

  lemma PushPath(best: seq<Entry>, e: Entry)
    requires DistinctPaths(best) && e.path !in BestPaths(best)
    ensures BestPaths(best + [e]) == BestPaths(best) + {e.path} && DistinctPaths(best + [e])
  {
    forall i | 0 <= i < |best|
      ensures best[i].path in BestPaths(best)
    {
      assert best[i] in best;
    }
    assert e in best + [e];
  }

  // ---- Everything a store retains.

  ghost predicate Retains<T>(history: seq<Saved<T>>, s: Store<T>, dropped: multiset<real>,
                             keepLast: nat, keepBest: nat, format: real -> string) {
    && DistinctEpochs(history)
    && s.last == Newest(history, keepLast)
    && HoldsLowest(history, s.best, dropped, keepBest)
    && Traced(history, s, format) && DistinctPaths(s.best)
    && FilesMatch(history, s, format)
  }

  ghost predicate NewEpoch<T>(history: seq<Saved<T>>, epoch: int) {
    forall i | 0 <= i < |history| :: history[i].epoch != epoch
  }

  lemma EmptyStoreRetainsNothing<T>(keepLast: nat, keepBest: nat, format: real -> string)
    requires keepLast >= 1 && keepBest >= 1
    ensures Retains<T>([], Store([], [], map[]), multiset{}, keepLast, keepBest, format)
  {
    assert AllScores<T>([]) == [];
    assert Scores([]) == [];
  }

  lemma WrittenLater<T>(history: seq<Saved<T>>, h: Saved<T>, p: Path, state: T, format: real -> string)
    requires Written(history, p, state, format)
    ensures Written(history + [h], p, state, format)
  {
    var i :| 0 <= i < |history| && state == history[i].state &&
             (p == LastCheckpoint(history[i].epoch) || p == EntryOf(history[i], format).path);
    assert (history + [h])[i] == history[i];
  }

  lemma WrittenNow<T>(history: seq<Saved<T>>, h: Saved<T>, format: real -> string)
    ensures Written(history + [h], LastCheckpoint(h.epoch), h.state, format)
    ensures Written(history + [h], EntryOf(h, format).path, h.state, format)
  {
    assert (history + [h])[|history|] == h;
  }

  lemma NewestDistinct<T>(history: seq<Saved<T>>, keep: nat)
    requires DistinctEpochs(history)
    ensures Distinct(Newest(history, keep))
    ensures forall p | p in Newest(history, keep) ::
              p.LastCheckpoint? && exists i | 0 <= i < |history| :: history[i].epoch == p.epoch
  {
  }

  lemma NewestAfterSave<T>(history: seq<Saved<T>>, h: Saved<T>, keep: nat)
    requires keep >= 1
    ensures var listed := [LastCheckpoint(h.epoch)] + Newest(history, keep);
            Newest(history + [h], keep) == if |listed| <= keep then listed else listed[..keep]
  {
  }

  lemma BestPathsAreBest<T>(history: seq<Saved<T>>, s: Store<T>, format: real -> string)
    requires Traced(history, s, format)
    ensures forall p | p in BestPaths(s.best) ::
              p.BestCheckpoint? && exists i | 0 <= i < |history| :: history[i].epoch == p.epoch
  {
    forall p | p in BestPaths(s.best)
      ensures p.BestCheckpoint? && exists i | 0 <= i < |history| :: history[i].epoch == p.epoch
    {
      var e :| e in s.best && e.path == p;
      var i :| 0 <= i < |history| && e == EntryOf(history[i], format);
      assert history[i].epoch == p.epoch;
    }
  }

  lemma FilesAfterTrim<T>(listed: seq<Path>, files: map<Path, T>, others: set<Path>, keep: nat)
    requires Distinct(listed) && files.Keys == LastPaths(listed) + others && LastPaths(listed) !! others
    ensures var (last, left) := Trim(listed, files, keep);
            && left.Keys == LastPaths(last) + others
            && forall p | p in left :: p in files && left[p] == files[p]
  {
    TrimKeepsTheFirst(listed, files, keep);
    if |listed| > keep {
      DropTail(listed, keep);
      assert LastPaths(listed[keep..]) <= LastPaths(listed);
      assert (set p | p in listed[keep..]) == LastPaths(listed[keep..]);
    }
  }

  lemma AllWritten<T>(history: seq<Saved<T>>, files: map<Path, T>, h: Saved<T>, format: real -> string)
    requires forall p | p in files :: Written(history, p, files[p], format)
    ensures var more := files[LastCheckpoint(h.epoch) := h.state];
            forall p | p in more :: Written(history + [h], p, more[p], format)
  {
    var more := files[LastCheckpoint(h.epoch) := h.state];
    forall p | p in more
      ensures Written(history + [h], p, more[p], format)
    {
      WrittenNow(history, h, format);
      if p != LastCheckpoint(h.epoch) {
        WrittenLater(history, h, p, files[p], format);
      }
    }
  }

  lemma ListedApart<T>(history: seq<Saved<T>>, s: Store<T>, epoch: int, keep: nat, format: real -> string)
    requires DistinctEpochs(history) && NewEpoch(history, epoch) && s.last == Newest(history, keep)
    requires Traced(history, s, format)
    ensures var listed := [LastCheckpoint(epoch)] + s.last;
            && Distinct(listed) && LastPaths(listed) !! BestPaths(s.best)
            && LastPaths(listed) == LastPaths(s.last) + {LastCheckpoint(epoch)}
  {
    NewestDistinct(history, keep);
    BestPathsAreBest(history, s, format);
  }

  lemma AfterSaveLast<T>(history: seq<Saved<T>>, s: Store<T>, h: Saved<T>, dropped: multiset<real>, keepLast: nat,
                        keepBest: nat, format: real -> string)
    requires keepLast >= 1 && Retains(history, s, dropped, keepLast, keepBest, format) && NewEpoch(history, h.epoch)
    ensures var t := SaveLast(s, h.epoch, h.state, keepLast);
            && t.last == Newest(history + [h], keepLast) && t.best == s.best
            && FilesMatch(history + [h], t, format)
  {
    var path := LastCheckpoint(h.epoch);
    var listed, files := [path] + s.last, s.files[path := h.state];
    assert SaveLast(s, h.epoch, h.state, keepLast).last == Newest(history + [h], keepLast) by {
      TrimKeepsTheFirst(listed, files, keepLast);
      NewestAfterSave(history, h, keepLast);
    }
    ListedApart(history, s, h.epoch, keepLast, format);
    FilesAfterTrim(listed, files, BestPaths(s.best), keepLast);
    AllWritten(history, s.files, h, format);
  }

  lemma FilesAfterPush<T>(all: seq<Saved<T>>, t: Store<T>, e: Entry, state: T, u: Store<T>, format: real -> string)
    requires FilesMatch(all, t, format) && DistinctPaths(t.best) && e.path !in BestPaths(t.best)
    requires Written(all, e.path, state, format)
    requires u == t.(best := t.best + [e], files := t.files[e.path := state])
    ensures FilesMatch(all, u, format) && DistinctPaths(u.best)
  {
    PushPath(t.best, e);
  }

  lemma FilesAfterReplace<T>(all: seq<Saved<T>>, t: Store<T>, e: Entry, w: nat, state: T, u: Store<T>,
                            format: real -> string)
    requires FilesMatch(all, t, format) && DistinctPaths(t.best) && e.path !in BestPaths(t.best)
    requires Written(all, e.path, state, format) && w < |t.best| && t.best[w].path !in LastPaths(t.last)
    requires u == t.(best := t.best[w := e], files := t.files[e.path := state] - {t.best[w].path})
    ensures FilesMatch(all, u, format) && DistinctPaths(u.best)
  {
    ReplacePath(t.best, w, e);
    assert t.best[w] in t.best && t.best[w].path in BestPaths(t.best);
  }

  lemma TracedLater<T>(history: seq<Saved<T>>, s: Store<T>, h: Saved<T>, u: Store<T>, keepLast: nat,
                       format: real -> string)
    requires Traced(history, s, format) && u.last == Newest(history + [h], keepLast)
    requires forall e | e in u.best :: e in s.best || e == EntryOf(h, format)
    ensures Traced(history + [h], u, format)
  {
    var all := history + [h];
    assert all[|history|] == h;
    forall e | e in u.best
      ensures exists i | 0 <= i < |all| :: e == EntryOf(all[i], format)
    {
      if e in s.best {
        var i :| 0 <= i < |history| && e == EntryOf(history[i], format);
        assert all[i] == history[i];
      }
    }
  }

  lemma NewPath<T>(history: seq<Saved<T>>, s: Store<T>, h: Saved<T>, format: real -> string)
    requires Traced(history, s, format) && NewEpoch(history, h.epoch)
    ensures EntryOf(h, format).path !in BestPaths(s.best)
  {
    BestPathsAreBest(history, s, format);
  }

  lemma StillDistinct<T>(history: seq<Saved<T>>, h: Saved<T>)
    requires DistinctEpochs(history) && NewEpoch(history, h.epoch)
    ensures DistinctEpochs(history + [h])
  {
  }

  /** One save() with a new epoch keeps everything true, for the history one longer. */
  lemma SaveRetains<T>(history: seq<Saved<T>>, s: Store<T>, h: Saved<T>, u: Store<T>, dropped: multiset<real>,
                       keepLast: nat, keepBest: nat, format: real -> string) returns (dropped': multiset<real>)
    requires keepLast >= 1 && keepBest >= 1 && Retains(history, s, dropped, keepLast, keepBest, format)
    requires NewEpoch(history, h.epoch)
    requires SavesBest(SaveLast(s, h.epoch, h.state, keepLast), EntryOf(h, format), h.state, keepBest, u)
    ensures Retains(history + [h], u, dropped', keepLast, keepBest, format)
  {
    var t, e := SaveLast(s, h.epoch, h.state, keepLast), EntryOf(h, format);
    AfterSaveLast(history, s, h, dropped, keepLast, keepBest, format);
    NewPath(history, s, h, format);
    WrittenNow(history, h, format);
    StillDistinct(history, h);
    if |t.best| < keepBest {
      dropped' := dropped;
      LowestAfterPush(history, h, t.best, e, dropped, keepBest);
      FilesAfterPush(history + [h], t, e, h.state, u, format);
    } else {
      var w :| IsWorst(t.best, w) && u == Replaced(t, e, h.state, w);
      dropped' := AfterReplace(history, s, h, t, w, u, dropped, keepLast, keepBest, format);
    }
    TracedLater(history, s, h, u, keepLast, format);
  }

  lemma AfterReplace<T>(history: seq<Saved<T>>, s: Store<T>, h: Saved<T>, t: Store<T>, w: nat, u: Store<T>,
                        dropped: multiset<real>, keepLast: nat, keepBest: nat, format: real -> string)
    returns (dropped': multiset<real>)
    requires keepLast >= 1 && keepBest >= 1 && |t.best| == keepBest && t.best == s.best
    requires HoldsLowest(history, t.best, dropped, keepBest) && DistinctPaths(t.best) && Traced(history, s, format)
    requires FilesMatch(history + [h], t, format) && t.last == Newest(history + [h], keepLast)
    requires NewEpoch(history, h.epoch) && IsWorst(t.best, w) && u == Replaced(t, EntryOf(h, format), h.state, w)
    ensures HoldsLowest(history + [h], u.best, dropped', keepBest)
    ensures DistinctPaths(u.best) && FilesMatch(history + [h], u, format)
    ensures u.last == t.last && forall e | e in u.best :: e in s.best || e == EntryOf(h, format)
  {
    var e := EntryOf(h, format);
    if h.score < t.best[w].score {
      dropped' := dropped + multiset{t.best[w].score};
      LowestAfterReplace(history, h, t.best, e, w, dropped, keepBest);
      NewPath(history, s, h, format);
      WrittenNow(history, h, format);
      BestPathsAreBest(history, s, format);
      assert t.best[w] in s.best && t.best[w].path in BestPaths(s.best);
      FilesAfterReplace(history + [h], t, e, w, h.state, u, format);
    } else {
      dropped' := dropped + multiset{h.score};
      LowestAfterSkip(history, h, t.best, w, dropped, keepBest);
    }
  }

  // ---- The manager.

  // ---- An epoch saved twice.

  /** The stores of a run of saves from an empty one. */
  ghost predicate IsRun<T>(history: seq<Saved<T>>, stores: seq<Store<T>>, keepLast: nat, keepBest: nat,
                           format: real -> string) {
    && |stores| == |history| + 1 && stores[0] == Store([], [], map[])
    && forall i, j | 0 <= i && j == i + 1 < |stores| ::
         SaveStep(stores[i], history[i], stores[j], keepLast, keepBest, format)
  }

  lemma {:induction false} WorstExists(best: seq<Entry>) returns (w: nat)
    requires best != []
    ensures IsWorst(best, w)
  {
    var n := |best| - 1;
    if n == 0 {
      w := 0;
    } else {
      w := WorstExists(best[..n]);
      assert forall j | 0 <= j < n :: best[..n][j] == best[j];
      if best[n].score > best[w].score {
        w := n;
      }
    }
  }

  lemma SaveStepExists<T>(s: Store<T>, h: Saved<T>, keepLast: nat, keepBest: nat, format: real -> string)
    returns (t: Store<T>)
    requires keepBest >= 1
    ensures SaveStep(s, h, t, keepLast, keepBest, format)
  {
    var m, e := SaveLast(s, h.epoch, h.state, keepLast), EntryOf(h, format);
    if |m.best| < keepBest {
      t := m.(best := m.best + [e], files := m.files[e.path := h.state]);
    } else {
      var w := WorstExists(m.best);
      t := Replaced(m, e, h.state, w);
    }
  }

  /** Every history has a run. */
  lemma {:induction false} RunExists<T>(history: seq<Saved<T>>, keepLast: nat, keepBest: nat, format: real -> string)
    returns (stores: seq<Store<T>>)
    requires keepBest >= 1
    ensures IsRun(history, stores, keepLast, keepBest, format)
    decreases |history|
  {
    var n := |history| - 1;
    if history == [] {
      stores := [Store([], [], map[])];
    } else {
      var before := RunExists(history[..n], keepLast, keepBest, format);
      var t := SaveStepExists(before[n], history[n], keepLast, keepBest, format);
      stores := before + [t];
      forall i, j | 0 <= i && j == i + 1 < |stores|
        ensures SaveStep(stores[i], history[i], stores[j], keepLast, keepBest, format)
      {
        assert i < n ==> history[..n][i] == history[i] && stores[j] == before[j];
      }
    }
  }

  ghost predicate OnlyBestPaths(best: seq<Entry>) {
    forall e | e in best :: e.path.BestCheckpoint?
  }

  /** save_best() leaves the newest checkpoints and their files alone. */
  lemma BestLeavesNewest<T>(s: Store<T>, e: Entry, state: T, keep: nat, t: Store<T>)
    requires keep >= 1 && SavesBest(s, e, state, keep, t) && OnlyBestPaths(s.best) && e.path.BestCheckpoint?
    ensures t.last == s.last && OnlyBestPaths(t.best)
    ensures forall epoch :: LastCheckpoint(epoch) in t.files <==> LastCheckpoint(epoch) in s.files
  {
    if |s.best| >= keep {
      var w :| IsWorst(s.best, w) && t == Replaced(s, e, state, w);
      assert s.best[w] in s.best;
    }
  }

  /** The last k epochs counted, newest first. */
  function CountedDown(k: nat): seq<Path> {
    seq(k, i requires 0 <= i < k => LastCheckpoint(k - i))
  }

  lemma SaveStepOnNewest<T>(s: Store<T>, h: Saved<T>, t: Store<T>, keepLast: nat, keepBest: nat, format: real -> string)
    requires keepBest >= 1 && SaveStep(s, h, t, keepLast, keepBest, format) && OnlyBestPaths(s.best)
    ensures var m := SaveLast(s, h.epoch, h.state, keepLast);
            && t.last == m.last && OnlyBestPaths(t.best)
            && forall epoch :: LastCheckpoint(epoch) in t.files <==> LastCheckpoint(epoch) in m.files
  {
    BestLeavesNewest(SaveLast(s, h.epoch, h.state, keepLast), EntryOf(h, format), h.state, keepBest, t);
  }

  /** After saving epochs 1 to k, k at most keepLast, exactly these are listed. */
  lemma {:induction false} CountingUp<T>(history: seq<Saved<T>>, stores: seq<Store<T>>, keepLast: nat, keepBest: nat,
                                         format: real -> string, k: nat)
    requires keepBest >= 1 && IsRun(history, stores, keepLast, keepBest, format)
    requires k <= keepLast && k <= |history| && forall i | 0 <= i < k :: history[i].epoch == i + 1
    ensures stores[k].last == CountedDown(k) && OnlyBestPaths(stores[k].best)
  {
    if k > 0 {
      CountingUp(history, stores, keepLast, keepBest, format, k - 1);
      SaveStepOnNewest(stores[k - 1], history[k - 1], stores[k], keepLast, keepBest, format);
      assert [LastCheckpoint(k)] + CountedDown(k - 1) == CountedDown(k);
    }
  }

  /** In every run that saves epochs 1 to keepLast and then epoch 1 again, the checkpoint just
      saved is listed first and its file is gone. */
  lemma ResavedEpochLosesItsFile<T>(history: seq<Saved<T>>, stores: seq<Store<T>>, keepLast: nat, keepBest: nat,
                                    format: real -> string)
    requires keepLast >= 1 && keepBest >= 1 && IsRun(history, stores, keepLast, keepBest, format)
    requires |history| == keepLast + 1 && history[keepLast].epoch == 1
    requires forall i | 0 <= i < keepLast :: history[i].epoch == i + 1
    ensures var t := stores[keepLast + 1];
            t.last != [] && t.last[0] == LastCheckpoint(1) && LastCheckpoint(1) !in t.files
  {
    var s, h := stores[keepLast], history[keepLast];
    CountingUp(history, stores, keepLast, keepBest, format, keepLast);
    NewestSurvivesExactly(s, 1, h.state, keepLast);
    assert s.last[keepLast - 1..][0] == LastCheckpoint(1);
    SaveStepOnNewest(s, h, stores[keepLast + 1], keepLast, keepBest, format);
  }

  class CheckpointManager<T> {
    const keepLast: nat
    const keepBest: nat
    const format: real -> string // how a score appears in a file name
    var last: seq<Path>
    var best: seq<Entry>
    var files: map<Path, T>
    ghost var history: seq<Saved<T>>
    ghost var dropped: multiset<real>

    ghost function Abs(): Store<T>
      reads `last, `best, `files
    {
      Store(last, best, files)
    }

    ghost predicate Valid()
      reads this
    {
      && keepLast >= 1 && keepBest >= 1
      && Retains(history, Abs(), dropped, keepLast, keepBest, format)
    }

    constructor (keepLast: int, keepBest: int, format: real -> string)
      ensures Valid() && history == [] && files == map[]
      ensures this.keepLast == (if keepLast > 1 then keepLast else 1)
      ensures this.keepBest == (if keepBest > 1 then keepBest else 1) && this.format == format
    {
      this.keepLast := if keepLast > 1 then keepLast else 1;
      this.keepBest := if keepBest > 1 then keepBest else 1;
      this.format := format;
      last, best, files, history, dropped := [], [], map[], [], multiset{};
      new;
      EmptyStoreRetainsNothing<T>(this.keepLast, this.keepBest, format);
    }

    /** save(): whatever the epoch, the store moves as specified; with a new epoch the newest
        and the best of the whole history, and exactly their files, are still what is kept. */
    method Save(epoch: int, score: real, state: T)
      requires keepLast >= 1 && keepBest >= 1
      modifies this
      ensures SaveStep(old(Abs()), Saved(epoch, score, state), Abs(), keepLast, keepBest, format)
      ensures history == old(history) + [Saved(epoch, score, state)]
      ensures old(Valid()) && NewEpoch(old(history), epoch) ==> Valid()
    {
      ghost var before := Abs();
      SaveNewest(epoch, state);
      ghost var middle := Abs();
      SaveBest(EntryOf(Saved(epoch, score, state), format), state);
      if old(Valid()) && NewEpoch(history, epoch) {
        dropped := SaveRetains(history, before, Saved(epoch, score, state), Abs(), dropped, keepLast, keepBest, format);
      }
      history := history + [Saved(epoch, score, state)];
    }

    method SaveNewest(epoch: int, state: T)
      modifies `last, `files
      ensures Abs() == SaveLast(old(Abs()), epoch, state, keepLast)
    {
      var path := LastCheckpoint(epoch);
      files := files[path := state];
      last := [path] + last;
      ghost var listed, written := last, files;
      while |last| > keepLast
        invariant Trim(last, files, keepLast) == Trim(listed, written, keepLast)
        decreases |last|
      {
        var oldest := last[|last| - 1];
        last := last[..|last| - 1];
        files := files - {oldest};
      }
    }

    method SaveBest(e: Entry, state: T)
      requires keepBest >= 1
      modifies `best, `files
      ensures SavesBest(old(Abs()), e, state, keepBest, Abs())
    {
      if |best| < keepBest {
        best := best + [e];
        files := files[e.path := state];
      } else {
        var w := Worst();
        if e.score < best[w].score {
          var worst := best[w];
          best := best[w := e];
          files := files[e.path := state];
          files := files - {worst.path};
        }
      }
    }

    /** A worst entry, as the top of the heap of negated scores is. */
    method Worst() returns (w: nat)
      requires best != []
      ensures IsWorst(best, w)
    {
      w := 0;
      for i := 1 to |best|
        invariant w < i && forall j | 0 <= j < i :: best[j].score <= best[w].score
      {
        if best[i].score > best[w].score {
          w := i;
        }
      }
    }
  }
}
