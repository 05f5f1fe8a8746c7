/** The fast state refines the slow meaning: in every run the in-memory index is the replay of
    what is on disk, deleting segments never changes that replay, and a nil reply means durable. */
module WalRefinement {
  import opened WalLog
  import opened WalState
  import opened WalInvariant
  import opened Seqs

  // ---- How each operation changes the log -------------------------------------------------

  lemma {:induction false} LogSame(a: seq<Segment>, b: seq<Segment>)
    requires |a| == |b|
    requires forall i :: 0 <= i < |a| ==> a[i].seqNo == b[i].seqNo && a[i].frames == b[i].frames
    ensures Log(a) == Log(b)
  {
    if a == [] {
    } else {
      LogSame(a[..|a| - 1], b[..|b| - 1]);
    }
  }

  lemma LogStrip(a: seq<Segment>, b: seq<Segment>)
    requires Strip(a) == Strip(b)
    ensures Log(a) == Log(b)
    ensures a != [] ==> DurableLen(a) == DurableLen(b)
  {
    forall i | 0 <= i < |a| ensures a[i].seqNo == b[i].seqNo && a[i].frames == b[i].frames && a[i].durable == b[i].durable {
      assert Strip(a)[i] == Strip(b)[i];
    }
    LogSame(a, b);
    if a != [] {
      LogSame(a[..|a| - 1], b[..|b| - 1]);
    }
  }

  lemma {:induction false} LogSplit(segs: seq<Segment>, k: nat)
    requires k <= |segs|
    ensures Log(segs) == Log(segs[..k]) + Log(segs[k..])
  {
    if k == |segs| {
      assert segs[..k] == segs;
    } else {
      var n := |segs| - 1;
      LogSplit(segs[..n], k);
      assert segs[..n][..k] == segs[..k];
      assert segs[..n][k..] == segs[k..][..n - k];
      assert segs[k..][n - k] == segs[n];
    }
  }

  /** The records a batch put on disk, in order: those whose write succeeded. */
  function WrittenLog(batch: seq<Frame>, outs: seq<Outcome>): seq<Located>
    requires |batch| == |outs|
  {
    if batch == [] then []
    else
      var n := |batch| - 1;
      WrittenLog(batch[..n], outs[..n]) + (if outs[n].err then [] else [Located(batch[n].rec, outs[n].seg)])
  }

  lemma RotateLog(s: State, io: Io)
    requires Shape(s)
    ensures Log(Rotate(s, io).state.segments) == Log(s.segments)
    ensures Rotate(s, io).state.segments != [] && DurableLen(s.segments) <= DurableLen(Rotate(s, io).state.segments)
    ensures Rotate(s, io).ok ==> Active(Rotate(s, io).state) == EmptySegment(s.nextSeq)
    ensures Rotate(s, io).ok ==>
              var t := Rotate(s, io).state.segments; |t| > 0 && Log(t[..|t| - 1]) == Log(s.segments)
  {
    var t := Rotate(s, io).state.segments;
    if Rotate(s, io).ok {
      assert t[..|s.segments|] + [t[|s.segments|]] == t;
      LogSame(t[..|s.segments|], s.segments);
    } else {
      LogSame(t, s.segments);
      LogSame(t[..|t| - 1], s.segments[..|t| - 1]);
    }
  }

  /** Every request whose write succeeded before the last rotation sits in an older segment; every
      other successful write is in the active one. */
  ghost predicate LogGrew(s: State, batch: seq<Frame>, w: Written) {
    && Shape(w.state) && |batch| == |w.outs| == |w.synced|
    && s.segments != [] && DurableLen(s.segments) <= DurableLen(w.state.segments)
    && Log(w.state.segments) == Log(s.segments) + WrittenLog(batch, w.outs)
    && forall i :: 0 <= i < |batch| && !w.outs[i].err && w.synced[i] ==>
         |Log(s.segments)| + |WrittenLog(batch[..i], w.outs[..i])| < |Log(w.state.segments[..|w.state.segments| - 1])|
  }

  lemma {:induction false} WrittenPrefix(batch: seq<Frame>, outs: seq<Outcome>, i: nat)
    requires |batch| == |outs| && i < |batch|
    ensures |WrittenLog(batch[..i], outs[..i])| + (if outs[i].err then 0 else 1) <= |WrittenLog(batch, outs)|
    ensures WrittenLog(batch[..i], outs[..i]) <= WrittenLog(batch, outs)
    ensures !outs[i].err ==>
              WrittenLog(batch, outs)[|WrittenLog(batch[..i], outs[..i])|] == Located(batch[i].rec, outs[i].seg)
  {
    var n := |batch| - 1;
    if i < n {
      WrittenPrefix(batch[..n], outs[..n], i);
      assert batch[..n][..i] == batch[..i] && outs[..n][..i] == outs[..i];
    }
  }

  /** One more request: its record, if written, is the one new record of the log. */
  lemma LogGrewBy(s: State, batch: seq<Frame>, w: Written, f: Frame, v: Written)
    requires LogGrew(s, batch, w) && Shape(v.state)
    requires |v.outs| == |v.synced| == |batch| + 1 && v.outs[..|batch|] == w.outs && v.synced[..|batch|] == w.synced
    requires !v.outs[|batch|].err ==> !v.synced[|batch|]
    requires Log(v.state.segments[..|v.state.segments| - 1]) == Log(w.state.segments[..|w.state.segments| - 1])
    requires DurableLen(w.state.segments) <= DurableLen(v.state.segments)
    requires Log(v.state.segments) == Log(w.state.segments) +
               (if v.outs[|batch|].err then [] else [Located(f.rec, v.outs[|batch|].seg)])
    ensures LogGrew(s, batch + [f], v)
  {
    assert (batch + [f])[..|batch|] == batch;
    forall i | 0 <= i < |batch| && !v.outs[i].err && v.synced[i]
      ensures |Log(s.segments)| + |WrittenLog((batch + [f])[..i], v.outs[..i])| <
              |Log(v.state.segments[..|v.state.segments| - 1])|
    {
      assert v.outs[i] == w.outs[i] && v.synced[i] == w.synced[i];
      assert (batch + [f])[..i] == batch[..i] && v.outs[..i] == w.outs[..i];
    }
  }

  lemma WriteFrameLog(s: State, batch: seq<Frame>, w: Written, f: Frame, writeOk: bool)
    requires LogGrew(s, batch, w)
    ensures LogGrew(s, batch + [f], WriteFrame(w, f, writeOk))
  {
    var v := WriteFrame(w, f, writeOk);
    var n := |w.state.segments| - 1;
    var added := if v.outs[|batch|].err then [] else [Located(f.rec, Active(w.state).seqNo)];
    assert v.state.segments[..n] == w.state.segments[..n];
    assert Locate(v.state.segments[n]) == Locate(w.state.segments[n]) + added;
    LogGrewBy(s, batch, w, f, v);
  }

  lemma FailedRotationLog(s: State, batch: seq<Frame>, w: Written, f: Frame, io: Io)
    requires LogGrew(s, batch, w) && Inv(w.state)
    requires Active(w.state).size + f.len > w.state.maxSegmentBytes && !Rotate(w.state, io).ok
    ensures LogGrew(s, batch + [f], WriteOne(w, f, io))
  {
    RotateInv(w.state, io);
    RotateLog(w.state, io);
    var v := WriteOne(w, f, io);
    var n := |w.state.segments| - 1;
    LogSame(v.state.segments[..n], w.state.segments[..n]);
    LogGrewBy(s, batch, w, f, v);
  }

  /** After a successful rotation everything written so far is behind the active segment. */
  lemma RotationLog(s: State, batch: seq<Frame>, w: Written, io: Io)
    requires LogGrew(s, batch, w) && Inv(w.state) && Rotate(w.state, io).ok
    ensures LogGrew(s, batch, Written(Rotate(w.state, io).state, w.outs, MarkSynced(w.outs, w.synced)))
  {
    RotateInv(w.state, io);
    RotateLog(w.state, io);
    forall i | 0 <= i < |batch| && !w.outs[i].err
      ensures |WrittenLog(batch[..i], w.outs[..i])| < |WrittenLog(batch, w.outs)|
    {
      WrittenPrefix(batch, w.outs, i);
    }
  }

  lemma WriteOneLog(s: State, batch: seq<Frame>, w: Written, f: Frame, io: Io)
    requires LogGrew(s, batch, w) && Inv(w.state)
    ensures LogGrew(s, batch + [f], WriteOne(w, f, io))
  {
    if Active(w.state).size + f.len <= w.state.maxSegmentBytes {
      WriteFrameLog(s, batch, w, f, io.writeOk);
    } else if Rotate(w.state, io).ok {
      RotationLog(s, batch, w, io);
      WriteFrameLog(s, batch, Written(Rotate(w.state, io).state, w.outs, MarkSynced(w.outs, w.synced)), f, io.writeOk);
    } else {
      FailedRotationLog(s, batch, w, f, io);
    }
  }

  lemma {:induction false} WriteAllLog(s: State, batch: seq<Frame>, ios: seq<Io>)
    requires Inv(s) && |batch| == |ios|
    ensures LogGrew(s, batch, WriteAll(s, batch, ios))
  {
    if batch == [] {
    } else {
      var n := |batch| - 1;
      WriteAllLog(s, batch[..n], ios[..n]);
      WriteAllInv(s, batch[..n], ios[..n]);
      assert Inv(WriteAll(s, batch[..n], ios[..n]).state);
      hide LogGrew, WriteOne, Inv;
      WriteOneLog(s, batch[..n], WriteAll(s, batch[..n], ios[..n]), batch[n], ios[n]);
      SplitLast(batch);
    }
  }

  lemma FinalSyncLog(s: State, ok: bool)
    requires Shape(s)
    ensures Log(FinalSync(s, ok).segments) == Log(s.segments)
    ensures DurableLen(FinalSync(s, ok).segments) >= DurableLen(s.segments)
    ensures ok && Active(s).open ==> DurableLen(FinalSync(s, ok).segments) == |Log(s.segments)|
  {
    LogSame(FinalSync(s, ok).segments, s.segments);
    assert FinalSync(s, ok).segments[..|s.segments| - 1] == s.segments[..|s.segments| - 1];
  }

  // ---- A nil reply means durable ----------------------------------------------------------

  /** The position in the log at which request i of a batch was written. */
  function WrittenAt(s: State, batch: seq<Frame>, outs: seq<Outcome>, i: nat): nat
    requires |batch| == |outs| && i < |batch|
  {
    |Log(s.segments)| + |WrittenLog(batch[..i], outs[..i])|
  }

  /** With any mixture of write, sync, close and create failures inside the batch, a request that
      is answered nil has its record in the durable part of the log. */
  lemma NilReplyIsDurable(s: State, batch: seq<Frame>, ios: seq<Io>, syncOk: bool, i: nat)
    requires Inv(s) && |batch| == |ios| && i < |batch|
    requires Commit(s, batch, ios, syncOk).replies[i]
    ensures var outs := WriteAll(s, batch, ios).outs;
            var disk := Flushed(s, batch, ios, syncOk).segments;
            && disk != []
            && WrittenAt(s, batch, outs, i) < DurableLen(disk) <= |Log(disk)|
            && Log(disk)[WrittenAt(s, batch, outs, i)] == Located(batch[i].rec, outs[i].seg)
  {
    var w := WriteAll(s, batch, ios);
    WriteAllInv(s, batch, ios);
    WriteAllLog(s, batch, ios);
    FinalSyncLog(w.state, syncOk);
    WrittenPrefix(batch, w.outs, i);
  }

  // ---- The index refines the log ----------------------------------------------------------

  ghost predicate Refines(s: State) {
    s.index == Replay(Log(s.segments))
  }

  lemma ApplyOneIndex(s: State, r: Rec, seg: nat)
    ensures ApplyOne(s, r, seg).index == ApplyRec(s.index, r, seg)
  {
  }

  /** The records of a log that were not answered with an error; `failed` tells them, one flag a record. */
  function Told(log: seq<Located>, failed: seq<bool>): seq<Located>
    requires |log| == |failed|
  {
    if log == [] then []
    else
      var n := |log| - 1;
      Told(log[..n], failed[..n]) + (if failed[n] then [] else [log[n]])
  }

  lemma ToldNext(log: seq<Located>, failed: seq<bool>, l: Located, flag: bool)
    requires |log| == |failed|
    ensures Told(log + [l], failed + [flag]) == Told(log, failed) + (if flag then [] else [l])
  {
    TakeWithin(log, [l], |log|);
    TakeAll(log);
    TakeWithin(failed, [flag], |failed|);
    TakeAll(failed);
  }

  lemma {:induction false} ToldConcat(a: seq<Located>, fa: seq<bool>, b: seq<Located>, fb: seq<bool>)
    requires |a| == |fa| && |b| == |fb|
    ensures Told(a + b, fa + fb) == Told(a, fa) + Told(b, fb)
  {
    if b == [] {
      assert a + b == a && fa + fb == fa;
    } else {
      var n := |b| - 1;
      SplitLast(b);
      SplitLast(fb);
      Assoc(a, b[..n], [b[n]]);
      Assoc(fa, fb[..n], [fb[n]]);
      ToldConcat(a, fa, b[..n], fb[..n]);
      ToldNext(a + b[..n], fa + fb[..n], b[n], fb[n]);
    }
  }

  predicate NoneOf(failed: seq<bool>) {
    forall i :: 0 <= i < |failed| ==> !failed[i]
  }

  lemma {:induction false} ToldAll(log: seq<Located>, failed: seq<bool>)
    requires |log| == |failed| && NoneOf(failed)
    ensures Told(log, failed) == log
  {
    if log == [] {
    } else {
      ToldAll(log[..|log| - 1], failed[..|log| - 1]);
    }
  }

  lemma {:induction false} ToldOnly(log: seq<Located>, failed: seq<bool>, l: Located)
    requires |log| == |failed| && l in Told(log, failed)
    ensures l in log
  {
    var n := |log| - 1;
    if l in Told(log[..n], failed[..n]) {
      ToldOnly(log[..n], failed[..n], l);
    }
  }

  lemma ToldSegs(log: seq<Located>, failed: seq<bool>)
    requires |log| == |failed|
    ensures SegsOf(Told(log, failed)) <= SegsOf(log)
  {
    forall l | l in Told(log, failed) ensures l in log {
      ToldOnly(log, failed, l);
    }
    hide Told;
  }

  /** Of each record a batch has written: was its request answered with an error? */
  function Failures(outs: seq<Outcome>, synced: seq<bool>, finalOk: bool): seq<bool>
    requires |outs| == |synced|
  {
    if outs == [] then []
    else
      var n := |outs| - 1;
      Failures(outs[..n], synced[..n], finalOk) + (if outs[n].err then [] else [!Acked(outs[n], synced[n], finalOk)])
  }

  lemma {:induction false} FailuresFit(batch: seq<Frame>, outs: seq<Outcome>, synced: seq<bool>, finalOk: bool)
    requires |batch| == |outs| == |synced|
    ensures |Failures(outs, synced, finalOk)| == |WrittenLog(batch, outs)|
  {
    if batch == [] {
    } else {
      var n := |batch| - 1;
      FailuresFit(batch[..n], outs[..n], synced[..n], finalOk);
    }
  }

  lemma {:induction false} NoFailures(outs: seq<Outcome>, synced: seq<bool>, finalOk: bool)
    requires |outs| == |synced|
    requires forall i :: 0 <= i < |outs| && !outs[i].err ==> Acked(outs[i], synced[i], finalOk)
    ensures NoneOf(Failures(outs, synced, finalOk))
  {
    if outs == [] {
    } else {
      var n := |outs| - 1;
      NoFailures(outs[..n], synced[..n], finalOk);
    }
  }

  lemma ReplayNext(ix: Index, base: seq<Located>, log: seq<Located>, failed: seq<bool>, l: Located, flag: bool)
    requires |log| == |failed| && ix == Replay(base + Told(log, failed))
    ensures (if flag then ix else ApplyRec(ix, l.rec, l.seg)) == Replay(base + Told(log + [l], failed + [flag]))
  {
    hide Replay, ApplyRec, Told;
    ToldNext(log, failed, l, flag);
    ReplayAppend(base + Told(log, failed), l);
    Assoc(base, Told(log, failed), [l]);
    assert Told(log, failed) + [] == Told(log, failed);
  }

  lemma ApplyAllLast(s: State, batch: seq<Frame>, outs: seq<Outcome>, synced: seq<bool>, finalOk: bool)
    requires |batch| == |outs| == |synced| && batch != []
    ensures var n := |batch| - 1;
            var before := ApplyAll(s, batch[..n], outs[..n], synced[..n], finalOk).index;
            ApplyAll(s, batch, outs, synced, finalOk).index ==
            if Acked(outs[n], synced[n], finalOk) then ApplyRec(before, batch[n].rec, outs[n].seg) else before
  {
  }

  /** Applying a batch is replaying those of its records that were answered nil. */
  lemma {:induction false} ApplyAllReplays(
    s: State, base: seq<Located>, batch: seq<Frame>, outs: seq<Outcome>, synced: seq<bool>, finalOk: bool)
    requires |batch| == |outs| == |synced| && s.index == Replay(base)
    ensures |Failures(outs, synced, finalOk)| == |WrittenLog(batch, outs)|
    ensures ApplyAll(s, batch, outs, synced, finalOk).index ==
            Replay(base + Told(WrittenLog(batch, outs), Failures(outs, synced, finalOk)))
  {
    FailuresFit(batch, outs, synced, finalOk);
    if batch == [] {
      assert base + [] == base;
    } else {
      var n := |batch| - 1;
      ApplyAllReplays(s, base, batch[..n], outs[..n], synced[..n], finalOk);
      var l := Located(batch[n].rec, outs[n].seg);
      var before, flags := WrittenLog(batch[..n], outs[..n]), Failures(outs[..n], synced[..n], finalOk);
      ApplyAllLast(s, batch, outs, synced, finalOk);
      hide Replay, ApplyRec, ApplyAll, Told;
      ReplayNext(ApplyAll(s, batch[..n], outs[..n], synced[..n], finalOk).index, base, before, flags, l,
                 !Acked(outs[n], synced[n], finalOk));
      if outs[n].err {
        assert WrittenLog(batch, outs) == before && Failures(outs, synced, finalOk) == flags;
      }
    }
  }

  /** Segment numbers at the two sides of a cut are different. */
  lemma CutDisjoint(s: State, k: nat)
    requires Shape(s) && k <= |s.segments|
    ensures SegsOf(Log(s.segments[..k])) !! SegsOf(Log(s.segments[k..]))
  {
    forall a, b | a in Log(s.segments[..k]) && b in Log(s.segments[k..]) ensures a.seg != b.seg {
      LogSegs(s.segments[..k], a);
      LogSegs(s.segments[k..], b);
      var i :| 0 <= i < k && s.segments[..k][i].seqNo == a.seg;
      var j :| 0 <= j < |s.segments| - k && s.segments[k..][j].seqNo == b.seg;
      assert s.segments[i].seqNo < s.segments[k + j].seqNo;
    }
  }

  /** No live entry's event record is in segments that may be dropped. */
  lemma FrontIsUnreferenced(s: State, k: nat, id: string)
    requires Inv(s) && k <= |s.segments| && id in s.index
    requires forall i :: 0 <= i < k ==> s.segments[i].refCount == 0
    ensures forall l :: l in Log(s.segments[..k]) ==> l.seg != s.index[id].segSeq
  {
    forall l | l in Log(s.segments[..k]) ensures l.seg != s.index[id].segSeq {
      LogSegs(s.segments[..k], l);
      var i :| 0 <= i < k && s.segments[..k][i].seqNo == l.seg;
      assert s.segments[i].refCount == Count(s.index, s.segments[i].seqNo) == 0;
      assert Referrers(s.index, s.segments[i].seqNo) == {};
      assert id !in Referrers(s.index, s.segments[i].seqNo);
    }
  }

  /** The index is the replay of the log without the records answered with an error. */
  ghost predicate RefinesBut(s: State, failed: seq<bool>) {
    |failed| == |Log(s.segments)| && s.index == Replay(Told(Log(s.segments), failed))
  }

  lemma RefinesButNothing(s: State, failed: seq<bool>)
    requires |failed| == |Log(s.segments)| && NoneOf(failed)
    ensures RefinesBut(s, failed) <==> Refines(s)
  {
    ToldAll(Log(s.segments), failed);
  }

  /** Nothing failed. */
  function Fresh(n: nat): (failed: seq<bool>)
    ensures |failed| == n && NoneOf(failed)
  {
    seq(n, _ => false)
  }

  lemma UnreferencedSegments(s: State, k: nat)
    requires Inv(s) && k <= |s.segments|
    requires forall i :: 0 <= i < k ==> s.segments[i].refCount == 0
    ensures forall id :: id in s.index ==> s.index[id].segSeq !in SegsOf(Log(s.segments[..k]))
  {
    forall id | id in s.index ensures s.index[id].segSeq !in SegsOf(Log(s.segments[..k])) {
      FrontIsUnreferenced(s, k, id);
    }
  }

  /** The flags of the last n records. */
  function LastOf(failed: seq<bool>, n: nat): seq<bool> {
    if n <= |failed| then failed[|failed| - n..] else failed
  }

  /** A log without a front no entry of its replay was written in. */
  lemma ToldSuffix(front: seq<Located>, rest: seq<Located>, failedFront: seq<bool>, failedRest: seq<bool>)
    requires |failedFront| == |front| && |failedRest| == |rest| && SegsOf(front) !! SegsOf(rest)
    requires var ix := Replay(Told(front + rest, failedFront + failedRest));
             forall id :: id in ix ==> ix[id].segSeq !in SegsOf(front)
    ensures Replay(Told(rest, failedRest)) == Replay(Told(front + rest, failedFront + failedRest))
  {
    ToldConcat(front, failedFront, rest, failedRest);
    ToldSegs(front, failedFront);
    ToldSegs(rest, failedRest);
    hide Replay, Told, SegsOf;
    DroppingFrontKeepsMeaning(Told(front, failedFront), Told(rest, failedRest));
  }

  /** Garbage collection keeps the meaning of the log, records answered with an error or not. */
  lemma GcRefinesBut(s: State, failed: seq<bool>)
    requires Inv(s) && RefinesBut(s, failed)
    ensures RefinesBut(Gc(s), LastOf(failed, |Log(Gc(s).segments)|))
  {
    GcInv(s);
    var k := Dropped(s);
    var front, rest := Log(s.segments[..k]), Log(s.segments[k..]);
    LogSplit(s.segments, k);
    CutDisjoint(s, k);
    UnreferencedSegments(s, k);
    hide Log, Inv, Replay, Told, Dropped, SegsOf;
    assert failed == failed[..|front|] + failed[|front|..];
    ToldSuffix(front, rest, failed[..|front|], failed[|front|..]);
  }

  lemma GcRefines(s: State)
    requires Inv(s) && Refines(s)
    ensures Refines(Gc(s))
  {
    var failed := Fresh(|Log(s.segments)|);
    RefinesButNothing(s, failed);
    GcRefinesBut(s, failed);
    hide Log, Gc, Replay, Told;
    RefinesButNothing(Gc(s), LastOf(failed, |Log(Gc(s).segments)|));
  }

  // ---- A commit ---------------------------------------------------------------------------

  /** The flags once a batch is applied: those of before and of the records it has written. */
  function FailedApplied(s: State, batch: seq<Frame>, ios: seq<Io>, syncOk: bool, failed: seq<bool>): seq<bool>
    requires s.segments != [] && |batch| == |ios|
  {
    var w := WriteAll(s, batch, ios);
    failed + Failures(w.outs, w.synced, FinalOk(s, batch, ios, syncOk))
  }

  lemma AppliedRefinesBut(s: State, batch: seq<Frame>, ios: seq<Io>, syncOk: bool, failed: seq<bool>)
    requires Inv(s) && RefinesBut(s, failed) && |batch| == |ios|
    ensures RefinesBut(Applied(s, batch, ios, syncOk), FailedApplied(s, batch, ios, syncOk, failed))
  {
    var w := WriteAll(s, batch, ios);
    var f := Flushed(s, batch, ios, syncOk);
    var finalOk := FinalOk(s, batch, ios, syncOk);
    WriteAllInv(s, batch, ios);
    WriteAllLog(s, batch, ios);
    FinalSyncLog(w.state, syncOk);
    AppliedInv(s, batch, ios, syncOk);
    ApplyAllReplays(f, Told(Log(s.segments), failed), batch, w.outs, w.synced, finalOk);
    hide Replay, Log, Told, Inv, WriteAll, WrittenLog, Failures, Strip, Present;
    LogStrip(Applied(s, batch, ios, syncOk).segments, f.segments);
    ToldConcat(Log(s.segments), failed, WrittenLog(batch, w.outs), Failures(w.outs, w.synced, finalOk));
  }

  lemma CommitRefinesBut(s: State, batch: seq<Frame>, ios: seq<Io>, syncOk: bool, failed: seq<bool>)
    requires Inv(s) && RefinesBut(s, failed) && |batch| == |ios|
    ensures var t := Commit(s, batch, ios, syncOk).state;
            RefinesBut(t, LastOf(FailedApplied(s, batch, ios, syncOk, failed), |Log(t.segments)|))
  {
    AppliedInv(s, batch, ios, syncOk);
    hide Applied, FailedApplied, RefinesBut, Inv;
    AppliedRefinesBut(s, batch, ios, syncOk, failed);
    GcRefinesBut(Applied(s, batch, ios, syncOk), FailedApplied(s, batch, ios, syncOk, failed));
  }

  /** Every record the batch has written is answered nil. */
  predicate WrittenIsAnswered(s: State, batch: seq<Frame>, ios: seq<Io>, syncOk: bool)
    requires s.segments != [] && |batch| == |ios|
  {
    var w := WriteAll(s, batch, ios);
    forall i :: 0 <= i < |batch| && !w.outs[i].err ==> Commit(s, batch, ios, syncOk).replies[i]
  }

  /** Such a batch adds no flag that is set. */
  lemma NothingFailed(s: State, batch: seq<Frame>, ios: seq<Io>, syncOk: bool, failed: seq<bool>, n: nat)
    requires s.segments != [] && |batch| == |ios| && NoneOf(failed) && WrittenIsAnswered(s, batch, ios, syncOk)
    ensures NoneOf(LastOf(FailedApplied(s, batch, ios, syncOk, failed), n))
  {
    var w := WriteAll(s, batch, ios);
    var finalOk := FinalOk(s, batch, ios, syncOk);
    forall i | 0 <= i < |w.outs| && !w.outs[i].err ensures Acked(w.outs[i], w.synced[i], finalOk) {
      assert Commit(s, batch, ios, syncOk).replies[i];
    }
    NoFailures(w.outs, w.synced, finalOk);
    hide Failures, FinalOk, WriteAll;
  }

  /** A commit keeps index and replay equal if it has answered nil to all it has written, whatever
      failed otherwise. */
  lemma CommitRefines(s: State, batch: seq<Frame>, ios: seq<Io>, syncOk: bool)
    requires Inv(s) && Refines(s) && |batch| == |ios| && WrittenIsAnswered(s, batch, ios, syncOk)
    ensures Refines(Commit(s, batch, ios, syncOk).state)
  {
    var failed := Fresh(|Log(s.segments)|);
    var t := Commit(s, batch, ios, syncOk).state;
    RefinesButNothing(s, failed);
    CommitRefinesBut(s, batch, ios, syncOk, failed);
    NothingFailed(s, batch, ios, syncOk, failed, |Log(t.segments)|);
    hide Refines, Commit, Inv, FailedApplied, LastOf, WrittenIsAnswered;
    RefinesButNothing(t, LastOf(FailedApplied(s, batch, ios, syncOk, failed), |Log(t.segments)|));
  }

  lemma ActivateKeeps(s: State)
    requires s.segments != []
    ensures Activate(s).index == s.index && Log(Activate(s).segments) == Log(s.segments)
    ensures Active(Activate(s)).open && DurableLen(Activate(s).segments) == DurableLen(s.segments)
  {
    var n := |s.segments| - 1;
    LogSame(Activate(s).segments, s.segments);
    assert Activate(s).segments[..n] == s.segments[..n];
  }

  lemma RecoveredRefines(segs: seq<Segment>, maxSegmentBytes: int)
    ensures Refines(Recovered(segs, maxSegmentBytes))
  {
    LogSame(Recovered(segs, maxSegmentBytes).segments, segs);
  }

  lemma OpenRefines(segs: seq<Segment>, maxSegmentBytes: int)
    requires Findable(segs)
    ensures Refines(Open(segs, maxSegmentBytes))
    ensures Open(segs, maxSegmentBytes).index == Replay(Log(segs))
    ensures Inv(Open(segs, maxSegmentBytes)) && Active(Open(segs, maxSegmentBytes)).open
  {
    OpenInv(segs, maxSegmentBytes);
    if segs != [] {
      var r := Recovered(segs, maxSegmentBytes);
      RecoveredInv(segs, maxSegmentBytes);
      RecoveredRefines(segs, maxSegmentBytes);
      GcRefines(r);
      GcInv(r);
      ActivateKeeps(Gc(r));
    }
  }

  // ---- Whole runs -------------------------------------------------------------------------

  /** One thing that happens to a log: a batch is committed, or the process stops, inside a commit or
      between two, and a new one opens what is left. */
  datatype Step =
    | CommitStep(batch: seq<Frame>, ios: seq<Io>, syncOk: bool)
    | CrashStep(cut: Cut)

  predicate Enabled(s: State, st: Step) {
    match st
    case CommitStep(batch, ios, _) => s.segments != [] && |batch| == |ios|
    case CrashStep(cut) => CanCrash(s, cut)
  }

  function Next(s: State, st: Step): State
    requires Enabled(s, st)
  {
    match st
    case CommitStep(batch, ios, syncOk) => Commit(s, batch, ios, syncOk).state
    case CrashStep(cut) => Open(Found(s, cut), s.maxSegmentBytes)
  }

  /** Every state of a run, the first being a freshly created log. */
  ghost predicate IsRun(states: seq<State>, steps: seq<Step>, maxSegmentBytes: int) {
    && |states| == |steps| + 1
    && states[0] == Open([], maxSegmentBytes)
    && forall i :: 0 <= i < |steps| ==> Enabled(states[i], steps[i]) && states[i + 1] == Next(states[i], steps[i])
  }

  lemma FoundFindable(s: State, cut: Cut)
    requires Inv(s) && CanCrash(s, cut)
    ensures Findable(Found(s, cut))
    ensures Contiguous(s.segments) ==> Contiguous(Found(s, cut))
  {
    StoppedInv(s, cut);
    if Contiguous(s.segments) {
      StoppedContiguous(s, cut);
    }
    hide Stopped;
    SurvivorsFindable(Stopped(s, cut), cut.keep, cut.dur);
  }

  lemma NextInv(s: State, st: Step)
    requires Inv(s) && Enabled(s, st)
    ensures Inv(Next(s, st)) && Settled(Next(s, st))
    ensures Contiguous(s.segments) ==> Contiguous(Next(s, st).segments)
  {
    match st
    case CommitStep(batch, ios, syncOk) =>
      CommitInv(s, batch, ios, syncOk);
      if Contiguous(s.segments) {
        CommitContiguous(s, batch, ios, syncOk);
      }
    case CrashStep(cut) =>
      FoundFindable(s, cut);
      OpenInv(Found(s, cut), s.maxSegmentBytes);
      if Contiguous(s.segments) {
        OpenContiguous(Found(s, cut), s.maxSegmentBytes);
      }
  }

  /** In every state of every run, whatever fails and wherever a commit is cut off: segment numbers are
      consecutive and the next one is free, every reference count is the number of unresolved entries
      written in that segment, every unresolved entry's segment is on disk, and nothing unreferenced is
      left in front of the active segment's predecessor. */
  lemma {:induction false} RunInvariant(states: seq<State>, steps: seq<Step>, maxSegmentBytes: int, i: nat)
    requires IsRun(states, steps, maxSegmentBytes) && i < |states|
    ensures Inv(states[i]) && Settled(states[i]) && Contiguous(states[i].segments)
  {
    if i == 0 {
      FreshInv(maxSegmentBytes);
    } else {
      RunInvariant(states, steps, maxSegmentBytes, i - 1);
      hide Inv, Settled, Contiguous, Enabled, Next;
      NextInv(states[i - 1], steps[i - 1]);
    }
  }

  lemma {:induction false} ApplyAllKeyed(s: State, batch: seq<Frame>, outs: seq<Outcome>, synced: seq<bool>, finalOk: bool)
    requires |batch| == |outs| == |synced| && Keyed(s.index)
    ensures Keyed(ApplyAll(s, batch, outs, synced, finalOk).index)
  {
    if batch == [] {
    } else {
      var n := |batch| - 1;
      ApplyAllKeyed(s, batch[..n], outs[..n], synced[..n], finalOk);
      ApplyOneIndex(ApplyAll(s, batch[..n], outs[..n], synced[..n], finalOk), batch[n].rec, outs[n].seg);
    }
  }

  lemma NextKeyed(s: State, st: Step)
    requires Inv(s) && Keyed(s.index) && Enabled(s, st)
    ensures Keyed(Next(s, st).index)
  {
    match st
    case CommitStep(batch, ios, syncOk) =>
      var w := WriteAll(s, batch, ios);
      AppliedInv(s, batch, ios, syncOk);
      ApplyAllKeyed(Flushed(s, batch, ios, syncOk), batch, w.outs, w.synced, FinalOk(s, batch, ios, syncOk));
      GcInv(Applied(s, batch, ios, syncOk));
    case CrashStep(cut) =>
      FoundFindable(s, cut);
      OpenRefines(Found(s, cut), s.maxSegmentBytes);
      ReplayKeyed(Log(Found(s, cut)));
  }

  /** Every unresolved entry is filed under its own event's id, in every state of every run. */
  lemma {:induction false} RunKeyed(states: seq<State>, steps: seq<Step>, maxSegmentBytes: int, i: nat)
    requires IsRun(states, steps, maxSegmentBytes) && i < |states|
    ensures Keyed(states[i].index)
  {
    if i == 0 {
      FreshInv(maxSegmentBytes);
    } else {
      hide Commit, Open, Inv, Keyed, Settled;
      RunInvariant(states, steps, maxSegmentBytes, i - 1);
      RunKeyed(states, steps, maxSegmentBytes, i - 1);
      NextKeyed(states[i - 1], steps[i - 1]);
    }
  }

  lemma CrashRefines(s: State, cut: Cut)
    requires Inv(s) && CanCrash(s, cut)
    ensures Refines(Next(s, CrashStep(cut))) && Next(s, CrashStep(cut)).index == Replay(Log(Found(s, cut)))
  {
    FoundFindable(s, cut);
    OpenRefines(Found(s, cut), s.maxSegmentBytes);
  }

  /** The flags after a step: a commit adds those of what it has written, collection takes those of the
      segments it deletes, and a restart forgets them all. */
  function FailedNext(s: State, st: Step, failed: seq<bool>): seq<bool>
    requires Enabled(s, st)
  {
    var n := |Log(Next(s, st).segments)|;
    match st
    case CommitStep(batch, ios, syncOk) => LastOf(FailedApplied(s, batch, ios, syncOk, failed), n)
    case CrashStep(_) => Fresh(n)
  }

  /** The flags in state i of a run: which records on disk were answered with an error since the process
      was started. */
  ghost function FailedAt(states: seq<State>, steps: seq<Step>, maxSegmentBytes: int, i: nat): seq<bool>
    requires IsRun(states, steps, maxSegmentBytes) && i < |states|
  {
    if i == 0 then [] else FailedNext(states[i - 1], steps[i - 1], FailedAt(states, steps, maxSegmentBytes, i - 1))
  }

  lemma NextRefinesBut(s: State, st: Step, failed: seq<bool>)
    requires Inv(s) && RefinesBut(s, failed) && Enabled(s, st)
    ensures RefinesBut(Next(s, st), FailedNext(s, st, failed))
  {
    match st
    case CommitStep(batch, ios, syncOk) => CommitRefinesBut(s, batch, ios, syncOk, failed);
    case CrashStep(cut) =>
      CrashRefines(s, cut);
      hide Log, Inv, Replay, Told, CanCrash;
      RefinesButNothing(Next(s, st), Fresh(|Log(Next(s, st).segments)|));
  }

  /** In every state of every run, whatever fails, the index in memory is the replay of the segments then
      on disk without the records that were answered with an error since the last start. */
  lemma {:induction false} IndexIsToldReplay(states: seq<State>, steps: seq<Step>, maxSegmentBytes: int, i: nat)
    requires IsRun(states, steps, maxSegmentBytes) && i < |states|
    ensures RefinesBut(states[i], FailedAt(states, steps, maxSegmentBytes, i))
  {
    if i == 0 {
      FreshInv(maxSegmentBytes);
      LogSame(Open([], maxSegmentBytes).segments, [EmptySegment(0)]);
      assert [EmptySegment(0)][..0] == [];
      assert Log([EmptySegment(0)]) == [];
    } else {
      RunInvariant(states, steps, maxSegmentBytes, i - 1);
      IndexIsToldReplay(states, steps, maxSegmentBytes, i - 1);
      hide Inv, Settled, Contiguous, RefinesBut, Enabled, Next, FailedNext;
      NextRefinesBut(states[i - 1], steps[i - 1], FailedAt(states, steps, maxSegmentBytes, i - 1));
    }
  }

  /** A restart, or a commit that has answered nil to all it has written. */
  predicate Benign(s: State, st: Step) {
    Enabled(s, st) && (st.CommitStep? ==> WrittenIsAnswered(s, st.batch, st.ios, st.syncOk))
  }

  lemma NextNothingFailed(s: State, st: Step, failed: seq<bool>)
    requires Benign(s, st) && (st.CrashStep? || NoneOf(failed))
    ensures NoneOf(FailedNext(s, st, failed))
  {
    hide Next, Log, FailedApplied, WrittenIsAnswered, LastOf, CanCrash;
    if st.CommitStep? {
      NothingFailed(s, st.batch, st.ios, st.syncOk, failed, |Log(Next(s, st).segments)|);
    }
  }

  lemma {:induction false} NothingFailedSince(states: seq<State>, steps: seq<Step>, maxSegmentBytes: int, since: nat, i: nat)
    requires IsRun(states, steps, maxSegmentBytes) && since <= i < |states|
    requires since == 0 || steps[since - 1].CrashStep?
    requires forall j :: since <= j < i ==> Benign(states[j], steps[j])
    ensures NoneOf(FailedAt(states, steps, maxSegmentBytes, i))
  {
    hide Next, FailedNext, IsRun, Enabled, WrittenIsAnswered;
    if i == 0 {
    } else {
      FailedStep(states, steps, maxSegmentBytes, i);
      if i > since {
        NothingFailedSince(states, steps, maxSegmentBytes, since, i - 1);
      }
      hide FailedAt;
      assert Benign(states[i - 1], steps[i - 1]);
      NextNothingFailed(states[i - 1], steps[i - 1], FailedAt(states, steps, maxSegmentBytes, i - 1));
    }
  }

  lemma FailedStep(states: seq<State>, steps: seq<Step>, maxSegmentBytes: int, i: nat)
    requires IsRun(states, steps, maxSegmentBytes) && 0 < i < |states|
    ensures |states| == |steps| + 1 && Enabled(states[i - 1], steps[i - 1])
    ensures FailedAt(states, steps, maxSegmentBytes, i) ==
            FailedNext(states[i - 1], steps[i - 1], FailedAt(states, steps, maxSegmentBytes, i - 1))
  {
    hide FailedNext, Enabled, Next;
  }

  /** In every run, restarts and commits cut off anywhere, the index in memory is the replay of exactly
      the segments that are still on disk, as long as every commit completed since the start or since a
      restart has answered nil to all that it has written. */
  lemma IndexRefinesLog(states: seq<State>, steps: seq<Step>, maxSegmentBytes: int, since: nat, i: nat)
    requires IsRun(states, steps, maxSegmentBytes) && since <= i < |states|
    requires since == 0 || steps[since - 1].CrashStep?
    requires forall j :: since <= j < i ==> Benign(states[j], steps[j])
    ensures Refines(states[i])
  {
    IndexIsToldReplay(states, steps, maxSegmentBytes, i);
    NothingFailedSince(states, steps, maxSegmentBytes, since, i);
    hide FailedAt, Log, Told, Replay;
    RefinesButNothing(states[i], FailedAt(states, steps, maxSegmentBytes, i));
  }

  // ---- Restarts ---------------------------------------------------------------------------

  /** An idle process stops and nothing of its files is lost. */
  predicate Quiet(s: State, st: Step) {
    st.CrashStep? && st.cut.batch == [] && st.cut.ios == [] && st.cut.dropped == 0
    && s.segments != [] && st.cut.keep == |Active(s).frames|
  }

  lemma QuietKeepsLog(s: State, st: Step)
    requires Inv(s) && Enabled(s, st) && Quiet(s, st)
    ensures Log(Found(s, st.cut)) == Log(s.segments)
  {
    var f := FinalSync(s, st.cut.syncOk);
    assert WriteAll(s, [], []) == Written(s, [], []);
    assert Stopped(s, st.cut).segments == f.segments;
    LogSame(f.segments, s.segments);
    LogSame(Found(s, st.cut), f.segments);
  }

  lemma QuietKeepsIndex(s: State, st: Step)
    requires Inv(s) && Refines(s) && Enabled(s, st) && Quiet(s, st)
    ensures Refines(Next(s, st)) && Next(s, st).index == s.index
  {
    CrashRefines(s, st.cut);
    QuietKeepsLog(s, st);
  }

  /** Restarting any number of times in a row recovers the same index as the first restart did, be that
      a crash in mid commit, although each restart may delete segments. */
  lemma {:induction false} RestartsAgree(states: seq<State>, steps: seq<Step>, maxSegmentBytes: int, i: nat, j: nat)
    requires IsRun(states, steps, maxSegmentBytes) && i < j < |states| && steps[i].CrashStep?
    requires forall k :: i < k < j ==> Quiet(states[k], steps[k])
    ensures states[j].index == states[i + 1].index && Refines(states[j])
  {
    hide Inv, Settled, Contiguous, Quiet, Refines, Open, CanCrash;
    RunInvariant(states, steps, maxSegmentBytes, j - 1);
    if j == i + 1 {
      CrashRefines(states[i], steps[i].cut);
    } else {
      RestartsAgree(states, steps, maxSegmentBytes, i, j - 1);
      QuietKeepsIndex(states[j - 1], steps[j - 1]);
    }
  }

  lemma {:induction false} GcAfterDrop(s: State, k: nat)
    requires s.segments != [] && k <= Dropped(s)
    ensures k < |s.segments| && Gc(DropFront(s, k)) == Gc(s)
    decreases k
  {
    if k == 0 {
      assert DropFront(s, 0) == s;
    } else {
      GcAfterDrop(DropFront(s, 1), k - 1);
      assert DropFront(DropFront(s, 1), k - 1) == DropFront(s, k);
    }
  }

  lemma RecoveredDrop(segs: seq<Segment>, maxSegmentBytes: int, d: nat)
    requires d < |segs| && Replay(Log(segs[d..])) == Replay(Log(segs))
    ensures Recovered(segs[d..], maxSegmentBytes) == DropFront(Recovered(segs, maxSegmentBytes), d)
  {
    hide Replay, Log, Count;
  }

  lemma DropUnreferenced(segs: seq<Segment>, maxSegmentBytes: int, d: nat)
    requires segs != [] && Findable(segs) && d <= |segs|
    requires forall i :: 0 <= i < d ==> Recovered(segs, maxSegmentBytes).segments[i].refCount == 0
    ensures Replay(Log(segs[d..])) == Replay(Log(segs))
  {
    LogSplit(segs, d);
    RecoveredFront(segs, maxSegmentBytes, d);
    hide Replay, Log, Recovered;
    DroppingFrontKeepsMeaning(Log(segs[..d]), Log(segs[d..]));
  }

  lemma InvShape(s: State)
    requires Inv(s)
    ensures Shape(s)
  {
  }

  lemma RecoveredLogs(segs: seq<Segment>, maxSegmentBytes: int, d: nat)
    requires d <= |segs|
    ensures var r := Recovered(segs, maxSegmentBytes);
            && |r.segments| == |segs| && r.index == Replay(Log(segs))
            && Log(r.segments[..d]) == Log(segs[..d]) && Log(r.segments[d..]) == Log(segs[d..])
  {
    var r := Recovered(segs, maxSegmentBytes);
    hide Replay, Log;
    LogSame(r.segments[..d], segs[..d]);
    LogSame(r.segments[d..], segs[d..]);
  }

  lemma RecoveredFront(segs: seq<Segment>, maxSegmentBytes: int, d: nat)
    requires segs != [] && Findable(segs) && d <= |segs|
    requires forall i :: 0 <= i < d ==> Recovered(segs, maxSegmentBytes).segments[i].refCount == 0
    ensures SegsOf(Log(segs[..d])) !! SegsOf(Log(segs[d..]))
    ensures var ix := Replay(Log(segs)); forall id :: id in ix ==> ix[id].segSeq !in SegsOf(Log(segs[..d]))
  {
    var r := Recovered(segs, maxSegmentBytes);
    RecoveredInv(segs, maxSegmentBytes);
    RecoveredLogs(segs, maxSegmentBytes, d);
    hide Replay, Log, Inv, SegsOf, Recovered, Findable;
    InvShape(r);
    CutDisjoint(r, d);
    UnreferencedSegments(r, d);
  }

  /** Startup can itself be cut off while it deletes segments: the next one ends in the same state as if
      this one had gone through. */
  lemma StartupCanBeCutOff(segs: seq<Segment>, maxSegmentBytes: int, d: nat)
    requires segs != [] && Findable(segs) && d <= Dropped(Recovered(segs, maxSegmentBytes))
    ensures d < |segs| && Open(segs[d..], maxSegmentBytes) == Open(segs, maxSegmentBytes)
  {
    var r := Recovered(segs, maxSegmentBytes);
    GcDrops(r);
    GcAfterDrop(r, d);
    hide Replay, Log, Dropped, Gc, Findable, Activate;
    DropUnreferenced(segs, maxSegmentBytes, d);
    RecoveredDrop(segs, maxSegmentBytes, d);
  }
}
