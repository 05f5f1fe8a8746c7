/** What a nil reply buys: the record is on disk where no later failure, rotation, deletion, crash or
    restart can lose it, so the provider still owes an answer whenever the log is next replayed. */
module WalDurability {
  import opened Types
  import opened WalLog
  import opened WalState
  import opened WalInvariant
  import opened WalRefinement
  import opened Seqs

  /** Record r leaves (id, p) pending if it was: it does not answer the pair, and if it is a new
      event record of the id, that one names p again. */
  predicate Keeps(r: Rec, id: string, p: string) {
    (IsEventOf(r, id) ==> p in r.providers) && !IsAckOf(r, id, p)
  }

  /** Among the first `dur` records is an event record of `id` in segment `seg` that names p, and
      everything after it keeps the pair pending. */
  ghost predicate Anchored(log: seq<Located>, dur: int, id: string, p: string, seg: nat) {
    exists k :: 0 <= k < dur && k < |log| && AnchorAt(log, k, id, p, seg)
  }

  ghost predicate AnchorAt(log: seq<Located>, k: nat, id: string, p: string, seg: nat)
    requires k < |log|
  {
    && log[k].seg == seg && IsEventOf(log[k].rec, id) && p in log[k].rec.providers
    && forall j :: k < j < |log| ==> Keeps(log[j].rec, id, p)
  }

  /** The pair is pending in the index, and so is it in whatever a crash leaves of the log. */
  ghost predicate HeldIn(ix: Index, log: seq<Located>, dur: int, id: string, p: string) {
    Owes(ix, id, p) && Anchored(log, dur, id, p, ix[id].segSeq)
  }

  ghost predicate Held(s: State, id: string, p: string)
    requires s.segments != []
  {
    HeldIn(s.index, Log(s.segments), DurableLen(s.segments), id, p)
  }

  // ---- Replaying an anchored log ----------------------------------------------------------

  /** Every replay that reaches past the anchor has the pair pending, anchored again. */
  lemma {:induction false} AnchoredReplay(log: seq<Located>, dur: int, id: string, p: string, seg: nat)
    requires Anchored(log, dur, id, p, seg)
    ensures HeldIn(Replay(log), log, |log|, id, p)
  {
    var k :| 0 <= k < dur && k < |log| && AnchorAt(log, k, id, p, seg);
    var n := |log| - 1;
    if k == n || IsEventOf(log[n].rec, id) {
      assert AnchorAt(log, n, id, p, log[n].seg);
    } else {
      assert AnchorAt(log[..n], k, id, p, seg);
      AnchoredReplay(log[..n], n, id, p, seg);
      var before := Replay(log[..n]);
      var k' :| 0 <= k' < n && AnchorAt(log[..n], k', id, p, before[id].segSeq);
      assert log[n].rec.AckRec? && log[n].rec.eventId == id ==> p in before[id].pending - {log[n].rec.provider};
      assert AnchorAt(log, k', id, p, before[id].segSeq);
    }
  }

  // ---- One commit -------------------------------------------------------------------------

  /** Records written after request i come from later requests. */
  lemma {:induction false} WrittenAfter(batch: seq<Frame>, outs: seq<Outcome>, i: nat, q: nat)
    requires |batch| == |outs| && i < |batch|
    requires |WrittenLog(batch[..i + 1], outs[..i + 1])| <= q < |WrittenLog(batch, outs)|
    ensures exists j :: i < j < |batch| && WrittenLog(batch, outs)[q].rec == batch[j].rec
  {
    var n := |batch| - 1;
    TakeAll(batch);
    TakeAll(outs);
    if i < n && q < |WrittenLog(batch[..n], outs[..n])| {
      assert batch[..n][..i + 1] == batch[..i + 1] && outs[..n][..i + 1] == outs[..i + 1];
      WrittenAfter(batch[..n], outs[..n], i, q);
    }
  }

  lemma WrittenNext(batch: seq<Frame>, outs: seq<Outcome>, i: nat)
    requires |batch| == |outs| && i < |batch| && !outs[i].err
    ensures |WrittenLog(batch[..i + 1], outs[..i + 1])| == |WrittenLog(batch[..i], outs[..i])| + 1
  {
    TakeTake(batch, i, i + 1);
    TakeTake(outs, i, i + 1);
  }

  lemma {:induction false} WrittenFrom(batch: seq<Frame>, outs: seq<Outcome>, q: nat)
    requires |batch| == |outs| && q < |WrittenLog(batch, outs)|
    ensures exists j :: 0 <= j < |batch| && WrittenLog(batch, outs)[q].rec == batch[j].rec
  {
    var n := |batch| - 1;
    if q < |WrittenLog(batch[..n], outs[..n])| {
      WrittenFrom(batch[..n], outs[..n], q);
    }
  }

  /** The disk after the writes and the final sync of a batch, as the apply phase finds it. */
  ghost predicate Phase(s: State, batch: seq<Frame>, outs: seq<Outcome>, log: seq<Located>, dur: int) {
    && |batch| == |outs| && s.segments != []
    && log == Log(s.segments) + WrittenLog(batch, outs)
    && DurableLen(s.segments) <= dur
  }

  /** A durable event record of the batch anchors the pairs that nothing later in it touches. */
  lemma NewAnchor(s: State, batch: seq<Frame>, outs: seq<Outcome>, log: seq<Located>, dur: int, i: nat, id: string, p: string)
    requires Phase(s, batch, outs, log, dur) && i < |batch| && !outs[i].err
    requires WrittenAt(s, batch, outs, i) < dur
    requires IsEventOf(batch[i].rec, id) && p in batch[i].rec.providers
    requires forall j :: i < j < |batch| ==> Keeps(batch[j].rec, id, p)
    ensures Anchored(log, dur, id, p, outs[i].seg)
  {
    hide Log, DurableLen, WrittenLog, Keeps;
    var k := WrittenAt(s, batch, outs, i);
    var base := |Log(s.segments)|;
    WrittenPrefix(batch, outs, i);
    WrittenNext(batch, outs, i);
    forall j | k < j < |log| ensures Keeps(log[j].rec, id, p) {
      WrittenAfter(batch, outs, i, j - base);
    }
    assert AnchorAt(log, k, id, p, outs[i].seg);
  }

  /** A pair anchored before the batch stays anchored in the longer log. */
  lemma OldAnchor(s: State, batch: seq<Frame>, outs: seq<Outcome>, log: seq<Located>, dur: int, id: string, p: string, seg: nat)
    requires Phase(s, batch, outs, log, dur)
    requires Anchored(Log(s.segments), DurableLen(s.segments), id, p, seg)
    requires forall j :: 0 <= j < |batch| ==> Keeps(batch[j].rec, id, p)
    ensures Anchored(log, dur, id, p, seg)
  {
    var base := Log(s.segments);
    var k :| 0 <= k < DurableLen(s.segments) && k < |base| && AnchorAt(base, k, id, p, seg);
    forall j | k < j < |log| ensures Keeps(log[j].rec, id, p) {
      if j < |base| {
        assert log[j] == base[j];
      } else {
        WrittenFrom(batch, outs, j - |base|);
      }
    }
    assert AnchorAt(log, k, id, p, seg);
  }

  /** Applying one acknowledged request keeps a held pair held. */
  lemma ApplyHeld(ix: Index, r: Rec, seg: nat, log: seq<Located>, dur: int, id: string, p: string)
    requires Keeps(r, id, p)
    requires HeldIn(ix, log, dur, id, p) || IsEventOf(r, id)
    requires IsEventOf(r, id) ==> Anchored(log, dur, id, p, seg)
    ensures HeldIn(ApplyRec(ix, r, seg), log, dur, id, p)
  {
    if r.AckRec? && r.eventId == id {
      assert p in ix[id].pending - {r.provider};
    }
  }

  /** Applying the requests of a batch up to n: the pair is held if it was held before the batch
      (from = 0), or if request from - 1 was an acknowledged event record naming it. */
  lemma {:induction false} ApplyAllHeld(
    s: State, f: State, batch: seq<Frame>, outs: seq<Outcome>, synced: seq<bool>, finalOk: bool,
    log: seq<Located>, dur: int, id: string, p: string, from: nat, n: nat)
    requires Phase(s, batch, outs, log, dur) && |synced| == |batch| && from <= n <= |batch|
    requires forall i :: 0 <= i < |batch| && Acked(outs[i], synced[i], finalOk) ==> WrittenAt(s, batch, outs, i) < dur
    requires forall j :: from <= j < |batch| ==> Keeps(batch[j].rec, id, p)
    requires if from == 0 then HeldIn(f.index, log, dur, id, p)
             else Acked(outs[from - 1], synced[from - 1], finalOk)
                  && IsEventOf(batch[from - 1].rec, id) && p in batch[from - 1].rec.providers
    ensures HeldIn(ApplyAll(f, batch[..n], outs[..n], synced[..n], finalOk).index, log, dur, id, p)
  {
    if n == 0 {
    } else {
      var m := n - 1;
      assert batch[..n][..m] == batch[..m] && outs[..n][..m] == outs[..m] && synced[..n][..m] == synced[..m];
      var t := ApplyAll(f, batch[..m], outs[..m], synced[..m], finalOk);
      ApplyAllIndexStep(f, batch, outs, synced, finalOk, n);
      hide ApplyAll, ApplyRec, HeldIn, Log, WrittenLog, DurableLen, Keeps;
      if n > from {
        ApplyAllHeld(s, f, batch, outs, synced, finalOk, log, dur, id, p, from, m);
      }
      if Acked(outs[m], synced[m], finalOk) {
        if IsEventOf(batch[m].rec, id) {
          NewAnchor(s, batch, outs, log, dur, m, id, p);
        }
        ApplyHeld(t.index, batch[m].rec, outs[m].seg, log, dur, id, p);
      }
    }
  }

  lemma ApplyAllIndexStep(f: State, batch: seq<Frame>, outs: seq<Outcome>, synced: seq<bool>, finalOk: bool, n: nat)
    requires |batch| == |outs| == |synced| && 0 < n <= |batch|
    ensures ApplyAll(f, batch[..n], outs[..n], synced[..n], finalOk).index ==
            var before := ApplyAll(f, batch[..n - 1], outs[..n - 1], synced[..n - 1], finalOk).index;
            if Acked(outs[n - 1], synced[n - 1], finalOk) then ApplyRec(before, batch[n - 1].rec, outs[n - 1].seg) else before
  {
    assert batch[..n][..n - 1] == batch[..n - 1] && outs[..n][..n - 1] == outs[..n - 1];
    assert synced[..n][..n - 1] == synced[..n - 1];
  }

  /** An anchor outside the dropped front is still there, at an earlier position. */
  lemma AnchorDropFront(front: seq<Located>, rest: seq<Located>, dur: int, id: string, p: string, seg: nat)
    requires Anchored(front + rest, dur, id, p, seg)
    requires forall l :: l in front ==> l.seg != seg
    ensures Anchored(rest, dur - |front|, id, p, seg)
  {
    var log := front + rest;
    var k :| 0 <= k < dur && k < |log| && AnchorAt(log, k, id, p, seg);
    forall j | 0 <= j < |front| ensures log[j].seg != seg {
      assert front[j] in front;
    }
    assert forall j :: 0 <= j < |rest| ==> rest[j] == log[|front| + j];
    assert AnchorAt(rest, k - |front|, id, p, seg);
  }

  /** Garbage collection, also when it is cut off half way, never deletes the anchor of a held pair. */
  lemma DropHeld(s: State, k: nat, id: string, p: string)
    requires Inv(s) && Held(s, id, p) && k <= Dropped(s)
    ensures k < |s.segments| && Held(DropFront(s, k), id, p)
  {
    GcDrops(s);
    FrontIsUnreferenced(s, k, id);
    LogSplit(s.segments, k);
    GcDurable(s, k);
    hide Dropped, Inv, Log, DurableLen;
    AnchorDropFront(Log(s.segments[..k]), Log(s.segments[k..]), DurableLen(s.segments), id, p, s.index[id].segSeq);
  }

  lemma GcHeld(s: State, id: string, p: string)
    requires Inv(s) && Held(s, id, p)
    ensures Gc(s).segments != [] && Held(Gc(s), id, p)
  {
    GcDrops(s);
    DropHeld(s, Dropped(s), id, p);
  }

  lemma GcDurable(s: State, d: nat)
    requires d < |s.segments|
    ensures DurableLen(s.segments[d..]) == DurableLen(s.segments) - |Log(s.segments[..d])|
  {
    var n := |s.segments| - 1;
    LogSplit(s.segments[..n], d);
    assert s.segments[..n][..d] == s.segments[..d];
    assert s.segments[..n][d..] == s.segments[d..][..n - d];
  }

  /** What the apply phase starts from. */
  lemma FlushedPhase(s: State, batch: seq<Frame>, ios: seq<Io>, syncOk: bool)
    requires Inv(s) && |batch| == |ios|
    ensures var w := WriteAll(s, batch, ios);
            var f := Flushed(s, batch, ios, syncOk);
            && Inv(f) && f.index == s.index
            && Phase(s, batch, w.outs, Log(f.segments), DurableLen(f.segments))
            && (forall i :: 0 <= i < |batch| && !w.outs[i].err ==> Present(f, w.outs[i].seg))
            && (forall i :: 0 <= i < |batch| && Acked(w.outs[i], w.synced[i], FinalOk(s, batch, ios, syncOk)) ==>
                 WrittenAt(s, batch, w.outs, i) < DurableLen(f.segments))
  {
    var w := WriteAll(s, batch, ios);
    AppliedInv(s, batch, ios, syncOk);
    WriteAllInv(s, batch, ios);
    WriteAllLog(s, batch, ios);
    FinalSyncLog(w.state, syncOk);
    forall i | 0 <= i < |batch| && Acked(w.outs[i], w.synced[i], FinalOk(s, batch, ios, syncOk))
      ensures WrittenAt(s, batch, w.outs, i) < DurableLen(Flushed(s, batch, ios, syncOk).segments)
    {
      NilReplyIsDurable(s, batch, ios, syncOk, i);
    }
    hide Inv, Applied, Log, DurableLen, WrittenLog, Present;
  }

  /** Request i of the batch is an append that names the pair and was answered nil. */
  ghost predicate AppendedAt(s: State, batch: seq<Frame>, ios: seq<Io>, syncOk: bool, id: string, p: string, i: nat)
    requires s.segments != [] && |batch| == |ios|
  {
    && i < |batch| && Commit(s, batch, ios, syncOk).replies[i]
    && IsEventOf(batch[i].rec, id) && p in batch[i].rec.providers
  }

  ghost predicate KeptFrom(batch: seq<Frame>, id: string, p: string, from: nat) {
    forall j :: from <= j < |batch| ==> Keeps(batch[j].rec, id, p)
  }

  /** Once a batch is applied a pair is held if it was before and no record of the batch touches it, or
      if an append of it in the batch was answered nil and no later record of the batch touches it. */
  lemma AppliedHeld(s: State, batch: seq<Frame>, ios: seq<Io>, syncOk: bool, id: string, p: string, from: nat)
    requires Inv(s) && |batch| == |ios| && KeptFrom(batch, id, p, from)
    requires if from == 0 then Held(s, id, p) else AppendedAt(s, batch, ios, syncOk, id, p, from - 1)
    ensures var a := Applied(s, batch, ios, syncOk); Inv(a) && Held(a, id, p)
  {
    var w := WriteAll(s, batch, ios);
    var finalOk := FinalOk(s, batch, ios, syncOk);
    var f := Flushed(s, batch, ios, syncOk);
    FlushedPhase(s, batch, ios, syncOk);
    AppliedInv(s, batch, ios, syncOk);
    LogStrip(Applied(s, batch, ios, syncOk).segments, f.segments);
    TakeAll(batch);
    TakeAll(w.outs);
    TakeAll(w.synced);
    hide Log, DurableLen, WriteAll, ApplyAll, Flushed, Shape, RefsExact, Anchored, Strip, Phase;
    if from == 0 {
      OldAnchor(s, batch, w.outs, Log(f.segments), DurableLen(f.segments), id, p, s.index[id].segSeq);
    }
    ApplyAllHeld(s, f, batch, w.outs, w.synced, finalOk, Log(f.segments), DurableLen(f.segments), id, p, from, |batch|);
  }

  /** A commit keeps a held pair held unless one of its own records answers or supersedes it,
      whatever fails inside the commit. */
  lemma CommitKeepsHeld(s: State, batch: seq<Frame>, ios: seq<Io>, syncOk: bool, id: string, p: string)
    requires Inv(s) && |batch| == |ios| && Held(s, id, p)
    requires forall j :: 0 <= j < |batch| ==> Keeps(batch[j].rec, id, p)
    ensures var t := Commit(s, batch, ios, syncOk).state; t.segments != [] && Held(t, id, p)
  {
    AppliedHeld(s, batch, ios, syncOk, id, p, 0);
    hide Applied, Inv, Held;
    GcHeld(Applied(s, batch, ios, syncOk), id, p);
  }

  /** A nil reply to an append makes each of its pairs held, whatever else fails in the batch. */
  lemma NilReplyHolds(s: State, batch: seq<Frame>, ios: seq<Io>, syncOk: bool, i: nat, p: string)
    requires Inv(s) && |batch| == |ios| && i < |batch|
    requires Commit(s, batch, ios, syncOk).replies[i]
    requires batch[i].rec.EventRec? && p in batch[i].rec.providers
    requires forall j :: i < j < |batch| ==> Keeps(batch[j].rec, batch[i].rec.event.id, p)
    ensures var t := Commit(s, batch, ios, syncOk).state; t.segments != [] && Held(t, batch[i].rec.event.id, p)
  {
    AppliedHeld(s, batch, ios, syncOk, batch[i].rec.event.id, p, i + 1);
    hide Applied, Inv, Held;
    GcHeld(Applied(s, batch, ios, syncOk), batch[i].rec.event.id, p);
  }

  /** Stopping anywhere in a commit leaves files in which a pair is held under the same conditions, with
      `from` - 1 the append of it that was answered before the process stopped, if there was one. */
  lemma StoppedHeld(s: State, cut: Cut, id: string, p: string, from: nat)
    requires Inv(s) && CanStop(s, cut) && KeptFrom(cut.batch, id, p, from)
    requires if from == 0 then Held(s, id, p) else AppendedAt(s, cut.batch, cut.ios, cut.syncOk, id, p, from - 1)
    ensures Inv(Stopped(s, cut)) && Held(Stopped(s, cut), id, p)
  {
    StoppedInv(s, cut);
    AppliedHeld(s, cut.batch, cut.ios, cut.syncOk, id, p, from);
    hide Applied, Inv, Held;
    DropHeld(Applied(s, cut.batch, cut.ios, cut.syncOk), cut.dropped, id, p);
  }

  // ---- Crash and restart ------------------------------------------------------------------

  lemma SurvivorsLog(s: State, keep: nat, dur: nat)
    requires Shape(s) && CutFits(Active(s), keep, dur)
    ensures var n := |s.segments| - 1;
            var base := |Log(s.segments[..n])|;
            var left := Survivors(s.segments, keep, dur);
            && left[..n] == s.segments[..n] && left[n].seqNo == s.segments[n].seqNo
            && DurableLen(s.segments) <= DurableLen(left) == base + dur <= base + keep <= |Log(s.segments)|
            && Log(left) == Log(s.segments)[..base + keep] && |Log(left)| == base + keep
  {
    var n := |s.segments| - 1;
    var left := Survivors(s.segments, keep, dur);
    assert left[..n] == s.segments[..n];
    assert Locate(left[n]) == Locate(s.segments[n])[..keep];
  }

  /** Cutting the log behind an anchor leaves the anchor. */
  lemma AnchorCut(log: seq<Located>, cut: nat, dur: int, id: string, p: string, seg: nat)
    requires Anchored(log, dur, id, p, seg) && dur <= cut <= |log|
    ensures Anchored(log[..cut], dur, id, p, seg)
  {
    var k :| 0 <= k < dur && k < |log| && AnchorAt(log, k, id, p, seg);
    assert AnchorAt(log[..cut], k, id, p, seg);
  }

  /** Any crash leaves a log whose replay has every held pair pending. */
  lemma HeldSurvivesCrash(s: State, keep: nat, dur: nat, id: string, p: string)
    requires Inv(s) && Held(s, id, p) && CutFits(Active(s), keep, dur)
    ensures var log := Log(Survivors(s.segments, keep, dur)); HeldIn(Replay(log), log, |log|, id, p)
  {
    SurvivorsLog(s, keep, dur);
    hide Log, DurableLen, Replay, Anchored, Shape, RefsExact;
    var log := Log(Survivors(s.segments, keep, dur));
    AnchorCut(Log(s.segments), |log|, DurableLen(s.segments), id, p, s.index[id].segSeq);
    AnchoredReplay(log, DurableLen(s.segments), id, p, s.index[id].segSeq);
  }

  /** However a process stops, also inside a commit, the next one has every held pair pending that the
      commit does not touch. */
  lemma NextStartHasIt(s: State, cut: Cut, id: string, p: string)
    requires Inv(s) && Held(s, id, p) && CanCrash(s, cut) && KeptFrom(cut.batch, id, p, 0)
    ensures Owes(Next(s, CrashStep(cut)).index, id, p)
  {
    StoppedHeld(s, cut, id, p, 0);
    CrashRefines(s, cut);
    hide Stopped, Inv, Held, Open, Replay, Log;
    HeldSurvivesCrash(Stopped(s, cut), cut.keep, cut.dur, id, p);
  }

  // ---- What startup may delete ------------------------------------------------------------

  /** The frames have an event record of the id, but none within the first dur. */
  ghost predicate OnlyUnsynced(frames: seq<Frame>, dur: nat, id: string) {
    && (exists j :: 0 <= j < |frames| && IsEventOf(frames[j].rec, id))
    && (forall j :: 0 <= j < |frames| && j < dur ==> !IsEventOf(frames[j].rec, id))
  }

  /** Positions of a log at or behind `base` are the frames of its last segment. */
  ghost predicate LastPart(log: seq<Located>, base: nat, frames: seq<Frame>, seg: nat) {
    && |log| == base + |frames|
    && (forall k :: base <= k < |log| ==> log[k] == Located(frames[k - base].rec, seg))
    && (forall k :: 0 <= k < base ==> log[k].seg != seg)
  }

  lemma LastPartOf(segs: seq<Segment>)
    requires segs != [] && Ascending(segs)
    ensures var n := |segs| - 1; LastPart(Log(segs), |Log(segs[..n])|, segs[n].frames, segs[n].seqNo)
  {
    var n := |segs| - 1;
    var front := Log(segs[..n]);
    assert Log(segs) == front + Locate(segs[n]) && |Locate(segs[n])| == |segs[n].frames|;
    assert forall j :: 0 <= j < |segs[n].frames| ==> Locate(segs[n])[j] == Located(segs[n].frames[j].rec, segs[n].seqNo);
    hide Log, Locate;
    forall k | 0 <= k < |front| ensures front[k].seg != segs[n].seqNo {
      LogSegs(segs[..n], front[k]);
      var i :| 0 <= i < n && segs[..n][i].seqNo == front[k].seg;
      assert segs[i].seqNo < segs[n].seqNo;
    }
  }

  /** Replay attributes the entry to the segment of its last event record. That segment holds a durable
      anchor too, unless it is the last one and all its event records of the id are unsynced. */
  lemma AnchorInLastPart(
    log: seq<Located>, base: nat, frames: seq<Frame>, seg: nat, was: nat, dur: nat, id: string, p: string, q: nat)
    requires LastPart(log, base, frames, seg) && was <= base + dur && dur <= |frames|
    requires Anchored(log, was, id, p, q)
    ensures HeldIn(Replay(log), log, base + dur, id, p) <==> !OnlyUnsynced(frames, dur, id)
  {
    var k :| 0 <= k < was && k < |log| && AnchorAt(log, k, id, p, q);
    AnchoredReplay(log, was, id, p, q);
    var l := ReplayEntry(log, id);
    hide Replay;
    if OnlyUnsynced(frames, dur, id) {
      var j :| 0 <= j < |frames| && IsEventOf(frames[j].rec, id);
      assert IsEventOf(log[base + j].rec, id) && l >= base + j;
      forall k' | 0 <= k' < base + dur && k' < |log| ensures !AnchorAt(log, k', id, p, seg) {
        assert k' >= base ==> log[k'].rec == frames[k' - base].rec;
      }
    } else if l < base + dur {
      assert AnchorAt(log, l, id, p, log[l].seg);
    } else {
      assert IsEventOf(frames[l - base].rec, id);
      var j :| 0 <= j < |frames| && j < dur && IsEventOf(frames[j].rec, id);
      assert log[base + j].rec == frames[j].rec;
      var m := if base + j >= k then base + j else k;
      assert m >= base && log[m].seg == seg;
      assert AnchorAt(log, m, id, p, seg);
    }
  }

  lemma OpenKeepsLog(segs: seq<Segment>, maxSegmentBytes: int, id: string, p: string)
    requires segs != [] && Findable(segs)
    requires HeldIn(Replay(Log(segs)), Log(segs), DurableLen(segs), id, p)
    ensures var t := Open(segs, maxSegmentBytes); t.segments != [] && Held(t, id, p)
  {
    var r := Recovered(segs, maxSegmentBytes);
    var n := |segs| - 1;
    RecoveredInv(segs, maxSegmentBytes);
    LogSame(r.segments, segs);
    LogSame(r.segments[..n], segs[..n]);
    assert DurableLen(r.segments) == DurableLen(segs);
    hide Log, DurableLen, Replay, Anchored, Recovered;
    GcHeld(r, id, p);
    ActivateKeeps(Gc(r));
    hide Gc, Activate, Inv;
  }

  /** Conversely, what startup holds it found held: it deletes, but adds nothing. */
  lemma OpenAddsNothing(segs: seq<Segment>, maxSegmentBytes: int, id: string, p: string)
    requires segs != [] && Findable(segs)
    requires var t := Open(segs, maxSegmentBytes); t.segments != [] && Held(t, id, p)
    ensures HeldIn(Replay(Log(segs)), Log(segs), DurableLen(segs), id, p)
  {
    var r := Recovered(segs, maxSegmentBytes);
    RecoveredLog(segs, maxSegmentBytes);
    hide Log, DurableLen, Replay, Recovered, HeldIn, Findable;
    GcDrops(r);
    ActivateKeeps(Gc(r));
    hide Activate, Dropped, Gc;
    UndropHeld(r, Dropped(r), id, p);
  }

  lemma RecoveredLog(segs: seq<Segment>, maxSegmentBytes: int)
    requires segs != []
    ensures var r := Recovered(segs, maxSegmentBytes);
            r.segments != [] && r.index == Replay(Log(segs)) && Log(r.segments) == Log(segs)
            && DurableLen(r.segments) == DurableLen(segs)
  {
    var r := Recovered(segs, maxSegmentBytes);
    var n := |segs| - 1;
    LogSame(r.segments, segs);
    LogSame(r.segments[..n], segs[..n]);
    hide Replay;
  }

  lemma UndropHeld(s: State, k: nat, id: string, p: string)
    requires k < |s.segments| && Held(DropFront(s, k), id, p)
    ensures Held(s, id, p)
  {
    LogSplit(s.segments, k);
    GcDurable(s, k);
    hide Log, DurableLen;
    AnchorBehindFront(Log(s.segments[..k]), Log(s.segments[k..]), DurableLen(s.segments), id, p, s.index[id].segSeq);
  }

  lemma AnchorBehindFront(front: seq<Located>, rest: seq<Located>, dur: int, id: string, p: string, seg: nat)
    requires Anchored(rest, dur - |front|, id, p, seg)
    ensures Anchored(front + rest, dur, id, p, seg)
  {
    var k :| 0 <= k < dur - |front| && k < |rest| && AnchorAt(rest, k, id, p, seg);
    var log := front + rest;
    forall j | |front| + k < j < |log| ensures Keeps(log[j].rec, id, p) {
      assert log[j] == rest[j - |front|];
    }
    assert AnchorAt(log, |front| + k, id, p, seg);
  }

  /** Exactly when a restart keeps a held pair held. Startup collection goes by what it reads, which
      need not be on stable storage; reopening syncs nothing. So it may delete the synced event record
      of a pair in favour of a later one in the active segment that no sync has covered, and it does
      unless the active segment has a synced event record of the id as well, or none at all. */
  lemma RestartKeepsHeldExactly(s: State, keep: nat, dur: nat, id: string, p: string)
    requires Inv(s) && Held(s, id, p) && CutFits(Active(s), keep, dur)
    ensures var t := Open(Survivors(s.segments, keep, dur), s.maxSegmentBytes);
            t.segments != [] && (Held(t, id, p) <==> !OnlyUnsynced(Active(s).frames[..keep], dur, id))
  {
    var left := Survivors(s.segments, keep, dur);
    SurvivorsFindable(s, keep, dur);
    SurvivorsHeld(s, keep, dur, id, p);
    OpenInv(left, s.maxSegmentBytes);
    hide Log, DurableLen, Replay, HeldIn, Open, Inv, OnlyUnsynced, Findable;
    if Held(Open(left, s.maxSegmentBytes), id, p) {
      OpenAddsNothing(left, s.maxSegmentBytes, id, p);
    }
    if HeldIn(Replay(Log(left)), Log(left), DurableLen(left), id, p) {
      OpenKeepsLog(left, s.maxSegmentBytes, id, p);
    }
  }

  lemma SurvivorsHeld(s: State, keep: nat, dur: nat, id: string, p: string)
    requires Inv(s) && Held(s, id, p) && CutFits(Active(s), keep, dur)
    ensures var left := Survivors(s.segments, keep, dur);
            HeldIn(Replay(Log(left)), Log(left), DurableLen(left), id, p) <==> !OnlyUnsynced(Active(s).frames[..keep], dur, id)
  {
    var left := Survivors(s.segments, keep, dur);
    var n := |left| - 1;
    hide Log, DurableLen, Replay, Anchored, OnlyUnsynced, LastPart, AlmostDurable, Ascending, RefsExact, Present;
    assert Anchored(Log(s.segments), DurableLen(s.segments), id, p, s.index[id].segSeq);
    hide Held, HeldIn;
    SurvivorsLog(s, keep, dur);
    SurvivorsFindable(s, keep, dur);
    LastPartOf(left);
    AnchorCut(Log(s.segments), |Log(left)|, DurableLen(s.segments), id, p, s.index[id].segSeq);
    AnchorInLastPart(Log(left), |Log(left[..n])|, left[n].frames, left[n].seqNo, DurableLen(s.segments), dur, id, p,
                     s.index[id].segSeq);
  }

  // ---- Whole runs -------------------------------------------------------------------------

  function Records(st: Step): seq<Frame> {
    match st
    case CommitStep(batch, _, _) => batch
    case CrashStep(cut) => cut.batch
  }

  /** The step is not a restart that finds an event record of the id in the active segment and none
      there that is on stable storage. */
  ghost predicate RestartIsSafe(s: State, st: Step, id: string)
    requires Enabled(s, st)
  {
    st.CrashStep? ==> !OnlyUnsynced(Active(Stopped(s, st.cut)).frames[..st.cut.keep], st.cut.dur, id)
  }

  /** A restart that finds only what is on stable storage, as after a power loss, is safe. */
  lemma PowerLossIsSafe(s: State, st: Step, id: string)
    requires Enabled(s, st) && (st.CrashStep? ==> st.cut.dur == st.cut.keep)
    ensures RestartIsSafe(s, st, id)
  {
    hide Stopped;
  }

  /** Nothing in the step answers or supersedes the pair, and its restart is safe for the id. */
  ghost predicate Spares(s: State, st: Step, id: string, p: string) {
    Enabled(s, st) && KeptFrom(Records(st), id, p, 0) && RestartIsSafe(s, st, id)
  }

  /** Whatever fails in a step and wherever it is cut off, it keeps a held pair held exactly when its
      restart, if it has one, is safe; provided no record of it answers or supersedes the pair. */
  lemma StepKeepsHeldExactly(s: State, st: Step, id: string, p: string)
    requires Inv(s) && Held(s, id, p) && Enabled(s, st) && KeptFrom(Records(st), id, p, 0)
    ensures var t := Next(s, st); t.segments != [] && (Held(t, id, p) <==> RestartIsSafe(s, st, id))
  {
    match st
    case CommitStep(batch, ios, syncOk) =>
      CommitKeepsHeld(s, batch, ios, syncOk, id, p);
    case CrashStep(cut) =>
      StoppedHeld(s, cut, id, p, 0);
      StoppedInv(s, cut);
      hide Stopped, Held, Inv, OnlyUnsynced, Open;
      RestartKeepsHeldExactly(Stopped(s, cut), cut.keep, cut.dur, id, p);
  }

  lemma SparingStepKeepsHeld(s: State, st: Step, id: string, p: string)
    requires Inv(s) && Held(s, id, p) && Spares(s, st, id, p)
    ensures Enabled(s, st) && Next(s, st).segments != [] && Held(Next(s, st), id, p)
  {
    hide Held, Inv, Next, KeptFrom, RestartIsSafe;
    StepKeepsHeldExactly(s, st, id, p);
  }

  ghost predicate Holds(s: State, id: string, p: string) {
    s.segments != [] && Held(s, id, p)
  }

  /** Through any part of a run, with failures, crashes inside commits and restarts, a held pair stays
      held while nothing answers or supersedes it and every restart is safe for its id. */
  lemma {:induction false} HeldThroughRun(
    states: seq<State>, steps: seq<Step>, maxSegmentBytes: int, i: nat, j: nat, id: string, p: string)
    requires IsRun(states, steps, maxSegmentBytes) && i <= j < |states| && Holds(states[i], id, p)
    requires forall k :: i <= k < j ==> Spares(states[k], steps[k], id, p)
    ensures Holds(states[j], id, p)
  {
    hide Holds, Held, Inv, Settled, Contiguous, Spares;
    if i == j {
    } else {
      HeldThroughRun(states, steps, maxSegmentBytes, i, j - 1, id, p);
      RunStepKeepsHeld(states, steps, maxSegmentBytes, j - 1, id, p);
    }
  }

  lemma RunStepKeepsHeld(states: seq<State>, steps: seq<Step>, maxSegmentBytes: int, k: nat, id: string, p: string)
    requires IsRun(states, steps, maxSegmentBytes) && k < |steps|
    requires Holds(states[k], id, p) && Spares(states[k], steps[k], id, p)
    ensures Holds(states[k + 1], id, p)
  {
    RunInvariant(states, steps, maxSegmentBytes, k);
    hide Held, Inv, Settled, Contiguous, Spares, Enabled, Next;
    SparingStepKeepsHeld(states[k], steps[k], id, p);
  }

  /** An append answered nil is held from then on. */
  lemma NilReplyThroughRun(
    states: seq<State>, steps: seq<Step>, maxSegmentBytes: int, i: nat, r: nat, j: nat, id: string, p: string)
    requires IsRun(states, steps, maxSegmentBytes) && i < j < |states| && steps[i].CommitStep?
    requires AppendedAt(states[i], steps[i].batch, steps[i].ios, steps[i].syncOk, id, p, r)
    requires KeptFrom(steps[i].batch, id, p, r + 1)
    requires forall k :: i < k < j ==> Spares(states[k], steps[k], id, p)
    ensures Holds(states[j], id, p)
  {
    RunInvariant(states, steps, maxSegmentBytes, i);
    NilReplyHolds(states[i], steps[i].batch, steps[i].ios, steps[i].syncOk, r, p);
    hide Held, Inv, Settled, Contiguous, KeptFrom, Spares;
    HeldThroughRun(states, steps, maxSegmentBytes, i + 1, j, id, p);
  }

  // ---- A restart that is not safe ---------------------------------------------------------

  lemma WriteAllOne(s: State, f: Frame, io: Io)
    requires s.segments != []
    ensures WriteAll(s, [f], [io]) == WriteOne(Written(s, [], []), f, io)
  {
    assert [f][..0] == [] && [io][..0] == [];
  }

  lemma ApplyAllOne(s: State, f: Frame, o: Outcome, synced: bool, finalOk: bool)
    ensures ApplyAll(s, [f], [o], [synced], finalOk) == if Acked(o, synced, finalOk) then ApplyOne(s, f.rec, o.seg) else s
  {
    assert [f][..0] == [] && [o][..0] == [] && [synced][..0] == [];
  }

  /** An idle stop after which `keep` frames of the active segment are found, none surely on disk. */
  function Idle(keep: nat): Step {
    CrashStep(Cut([], [], false, 0, keep, 0))
  }

  lemma IdleStop(s: State, keep: nat)
    requires s.segments != [] && Active(s).durable == 0 && keep <= |Active(s).frames|
    ensures Enabled(s, Idle(keep)) && Stopped(s, Idle(keep).cut) == s
  {
    GcDrops(s);
  }

  /** The states of the run below. */
  function LossyRun(e: Event): seq<State> {
    var f := Frame(EventRec(e, ["orb"]), 1);
    [State(map[], [Segment(0, [], 0, 0, true, 0)], 1, 1),
     State(map[e.id := Entry(e, {"orb"}, 0)], [Segment(0, [f], 1, 1, true, 1)], 1, 1),
     State(map[e.id := Entry(e, {"orb"}, 0)], [Segment(0, [f], 1, 1, false, 1), Segment(1, [f], 0, 1, true, 0)], 2, 1),
     State(map[e.id := Entry(e, {"orb"}, 1)], [Segment(1, [f], 0, 1, true, 1)], 2, 1),
     State(map[], [Segment(1, [], 0, 0, true, 0)], 2, 1)]
  }

  function LossySteps(e: Event): seq<Step> {
    var f := Frame(EventRec(e, ["orb"]), 1);
    var ok := Io(true, true, true, true);
    [CommitStep([f], [ok], true), CommitStep([f], [ok], false), Idle(1), Idle(0)]
  }

  lemma LossyFirst(e: Event)
    ensures var run, steps := LossyRun(e), LossySteps(e);
            && Enabled(run[0], steps[0]) && run[1] == Next(run[0], steps[0])
            && Commit(run[0], steps[0].batch, steps[0].ios, steps[0].syncOk).replies == [true]
  {
    var s, f, ok := LossyRun(e)[0], Frame(EventRec(e, ["orb"]), 1), Io(true, true, true, true);
    assert Members(["orb"]) == {"orb"};
    WriteAllOne(s, f, ok);
    assert [] + [f] == [f];
    var flushed := Flushed(s, [f], [ok], true);
    assert flushed.segments == [Segment(0, [f], 1, 1, true, 0)];
    ApplyAllOne(flushed, f, Outcome(false, 0), false, true);
    assert Applied(s, [f], [ok], true).segments == [Segment(0, [f], 1, 1, true, 1)];
  }

  lemma LossySecond(e: Event)
    ensures var run, steps := LossyRun(e), LossySteps(e);
            && Enabled(run[1], steps[1]) && run[2] == Next(run[1], steps[1])
            && Commit(run[1], steps[1].batch, steps[1].ios, steps[1].syncOk).replies == [false]
  {
    var s, f, ok := LossyRun(e)[1], Frame(EventRec(e, ["orb"]), 1), Io(true, true, true, true);
    assert MarkSynced([], []) == [] && [] + [f] == [f];
    WriteAllOne(s, f, ok);
    var flushed := Flushed(s, [f], [ok], false);
    assert flushed.segments == [Segment(0, [f], 1, 1, false, 1), Segment(1, [f], 0, 1, true, 0)];
    ApplyAllOne(flushed, f, Outcome(false, 1), false, false);
  }

  lemma LogOne(g: Segment)
    ensures Log([g]) == Locate(g)
  {
    assert [g][..0] == [];
  }

  lemma LogTwo(g: Segment, h: Segment)
    ensures Log([g, h]) == Locate(g) + Locate(h)
  {
    LogOne(g);
    assert [g, h][..1] == [g];
  }

  lemma LossyReplay(e: Event)
    ensures var s := LossyRun(e)[2]; Replay(Log(s.segments)) == map[e.id := Entry(e, {"orb"}, 1)]
    ensures Count(map[e.id := Entry(e, {"orb"}, 1)], 0) == 0 && Count(map[e.id := Entry(e, {"orb"}, 1)], 1) == 1
  {
    var s, f := LossyRun(e)[2], Frame(EventRec(e, ["orb"]), 1);
    var a, b := Located(f.rec, 0), Located(f.rec, 1);
    LogTwo(s.segments[0], s.segments[1]);
    assert Log(s.segments) == [a] + [b] && [] + [a] == [a];
    ReplayAppend([], a);
    ReplayAppend([a], b);
    assert Members(["orb"]) == {"orb"};
    var ix: Index := map[e.id := Entry(e, {"orb"}, 1)];
    assert Referrers(ix, 0) == {} && Referrers(ix, 1) == {e.id};
  }

  /** The first restart reads both records of the event and keeps the segment of the second. */
  lemma LossyRestart(e: Event)
    ensures var run, steps := LossyRun(e), LossySteps(e);
            Enabled(run[2], steps[2]) && run[3] == Next(run[2], steps[2])
  {
    var s, f := LossyRun(e)[2], Frame(EventRec(e, ["orb"]), 1);
    IdleStop(s, 1);
    LossyReplay(e);
    assert [f][..1] == [f];
    assert Found(s, Idle(1).cut) == s.segments;
    hide Stopped, Replay, Log, Count, Found;
    var r := Recovered(s.segments, 1);
    assert r.segments == [Segment(0, [f], 1, 0, false, 0), Segment(1, [f], 0, 0, false, 1)];
    LossyOpen(r, f);
  }

  lemma LossyOpen(r: State, f: Frame)
    requires r.segments == [Segment(0, [f], 1, 0, false, 0), Segment(1, [f], 0, 0, false, 1)] && f.len == 1
    ensures Activate(Gc(r)) == r.(segments := [Segment(1, [f], 0, 1, true, 1)])
  {
    assert r.segments[1..] == [Segment(1, [f], 0, 0, false, 1)];
    assert Gc(DropFront(r, 1)) == DropFront(r, 1);
    assert [f][..0] == [];
    assert TotalLen([f]) == 1;
  }

  /** The power loss leaves that segment empty. */
  lemma LossyPowerLoss(e: Event)
    ensures var run, steps := LossyRun(e), LossySteps(e);
            Enabled(run[3], steps[3]) && run[4] == Next(run[3], steps[3])
  {
    var s := LossyRun(e)[3];
    IdleStop(s, 0);
    var segs := Found(s, Idle(0).cut);
    assert segs == [Segment(1, [], 0, 1, true, 1)];
    LogOne(segs[0]);
    assert Log(segs) == [];
    hide Stopped, Found, Log;
    assert Referrers(map[], 1) == {};
    assert Recovered(segs, 1) == State(map[], [Segment(1, [], 0, 0, false, 0)], 2, 1);
  }

  lemma {:induction false} LossyStart(e: Event)
    ensures |LossyRun(e)| == 5 && |LossySteps(e)| == 4 && LossyRun(e)[0] == Open([], 1)
  {
    hide Open, Inv, Commit, Enabled, Next;
    FreshInv(1);
    assert EmptySegment(0) == Segment(0, [], 0, 0, true, 0);
  }

  lemma LossyIsRun(e: Event)
    ensures IsRun(LossyRun(e), LossySteps(e), 1)
  {
    hide Enabled, Next, Open, Commit, LossyRun, LossySteps;
    var run, steps := LossyRun(e), LossySteps(e);
    LossyStart(e);
    LossyFirst(e);
    LossySecond(e);
    LossyRestart(e);
    LossyPowerLoss(e);
    forall k | 0 <= k < 4 ensures Enabled(run[k], steps[k]) && run[k + 1] == Next(run[k], steps[k]) {
      assert k == 0 || k == 1 || k == 2 || k == 3;
    }
  }

  lemma LossyIsUnsafe(e: Event)
    ensures Enabled(LossyRun(e)[2], LossySteps(e)[2])
    ensures !RestartIsSafe(LossyRun(e)[2], LossySteps(e)[2], e.id)
  {
    var f := Frame(EventRec(e, ["orb"]), 1);
    IdleStop(LossyRun(e)[2], 1);
    assert Active(Stopped(LossyRun(e)[2], Idle(1).cut)).frames[..1] == [f];
    assert IsEventOf([f][0].rec, e.id);
  }

  /** The process dies and is restarted, before a power loss takes what was never synced. An event was
      accepted and its retry written, but not synced, to the next segment. The restart deletes the
      segment with the synced record, and the power loss takes the other: the event is gone. */
  lemma UnsyncedRetryLosesEvent(e: Event)
    ensures var run, steps := LossyRun(e), LossySteps(e);
            && IsRun(run, steps, 1)
            && Commit(run[0], steps[0].batch, steps[0].ios, steps[0].syncOk).replies == [true]
            && (forall k :: 0 < k < 4 ==> KeptFrom(Records(steps[k]), e.id, "orb", 0))
            && !RestartIsSafe(run[2], steps[2], e.id)
            && !Owes(run[4].index, e.id, "orb")
  {
    hide Commit, RestartIsSafe, IsRun, Enabled;
    LossyIsRun(e);
    LossyFirst(e);
    LossyIsUnsafe(e);
  }

  /** The second commit of that run writes a record and answers it with an error: index and files differ
      until the restart. */
  lemma FailedSyncBreaksRefinement(e: Event)
    ensures var run, steps := LossyRun(e), LossySteps(e);
            && IsRun(run, steps, 1)
            && Commit(run[1], steps[1].batch, steps[1].ios, steps[1].syncOk).replies == [false]
            && Refines(run[1]) && !Refines(run[2]) && Refines(run[3])
  {
    var run, steps := LossyRun(e), LossySteps(e);
    LossyIsRun(e);
    LossySecond(e);
    LossyReplay(e);
    LossyFirstRefines(e);
    assert steps[2].CrashStep?;
    hide Commit, IsRun, Enabled, Log, Replay;
    RestartsAgree(run, steps, 1, 2, 3);
  }

  lemma LossyFirstRefines(e: Event)
    ensures Refines(LossyRun(e)[1])
  {
    var s, f := LossyRun(e)[1], Frame(EventRec(e, ["orb"]), 1);
    LogOne(s.segments[0]);
    assert Log(s.segments) == [] + [Located(f.rec, 0)];
    ReplayAppend([], Located(f.rec, 0));
    assert Members(["orb"]) == {"orb"};
  }
}
