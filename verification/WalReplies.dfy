/** What becomes of each request of a batch, in terms of the files alone: whether it is written, where,
    and exactly when its caller is answered nil. */
module WalReplies {
  import opened Types
  import opened WalLog
  import opened WalState
  import opened WalInvariant
  import opened WalRefinement
  import opened Seqs

  // ---- Written or not ---------------------------------------------------------------------

  /** The outcome of a request does not depend on the requests after it. */
  lemma {:induction false} OutcomeStays(s: State, batch: seq<Frame>, ios: seq<Io>, i: nat)
    requires s.segments != [] && |batch| == |ios| && i < |batch|
    ensures WriteAll(s, batch, ios).outs[i] == WriteAll(s, batch[..i + 1], ios[..i + 1]).outs[i]
  {
    var n := |batch| - 1;
    if i < n {
      OutcomeStays(s, batch[..n], ios[..n], i);
      TakeTake(batch, i + 1, n);
      TakeTake(ios, i + 1, n);
    } else {
      TakeAll(batch);
      TakeAll(ios);
    }
  }

  /** The frame does not fit into the active segment. */
  predicate Overflows(s: State, f: Frame)
    requires s.segments != []
  {
    Active(s).size + f.len > s.maxSegmentBytes
  }

  /** Request i, given the log as the requests before it have left it, is written if and only if there is
      an open file, a new one if the frame does not fit, and the write succeeds. It is then the one record
      more on disk, in that file; otherwise nothing is. */
  lemma {:induction false} RequestFate(s: State, batch: seq<Frame>, ios: seq<Io>, i: nat)
    requires Inv(s) && |batch| == |ios| && i < |batch|
    ensures var before := WriteAll(s, batch[..i], ios[..i]).state;
            var after := WriteAll(s, batch[..i + 1], ios[..i + 1]).state;
            var o := WriteAll(s, batch, ios).outs[i];
            && before.segments != []
            && (!o.err <==>
                 && ios[i].writeOk && Active(before).open
                 && (Overflows(before, batch[i]) ==> ios[i].syncOk && ios[i].closeOk && ios[i].createOk))
            && (!o.err ==> o.seg == if Overflows(before, batch[i]) then before.nextSeq else Active(before).seqNo)
            && Log(after.segments) == Log(before.segments) + (if o.err then [] else [Located(batch[i].rec, o.seg)])
  {
    hide Log, Inv, LogGrew, WriteAll, WriteOne, Active;
    NonEmpty(s);
    var w := WriteAll(s, batch[..i], ios[..i]);
    OutcomeStays(s, batch, ios, i);
    WriteAllInv(s, batch[..i], ios[..i]);
    WriteAllNext(s, batch, ios, i);
    NonEmpty(w.state);
    OneWritten(w, batch[i], ios[i]);
    OneLogged(s, batch[..i], ios[..i], batch[i], ios[i]);
    assert batch[..i] + [batch[i]] == batch[..i + 1] && ios[..i] + [ios[i]] == ios[..i + 1];
  }

  lemma NonEmpty(s: State)
    requires Inv(s)
    ensures s.segments != []
  {
  }

  lemma {:induction false} WriteAllNext(s: State, batch: seq<Frame>, ios: seq<Io>, i: nat)
    requires s.segments != [] && |batch| == |ios| && i < |batch|
    ensures var w := WriteAll(s, batch[..i], ios[..i]);
            && |w.outs| == i && WriteAll(s, batch[..i + 1], ios[..i + 1]) == WriteOne(w, batch[i], ios[i])
  {
    TakeTake(batch, i, i + 1);
    TakeTake(ios, i, i + 1);
    hide WriteOne;
  }

  lemma {:induction false} OneWritten(w: Written, f: Frame, io: Io)
    requires Inv(w.state) && |w.outs| == |w.synced|
    ensures var v := WriteOne(w, f, io);
            var n := |w.outs|;
            && |v.outs| == n + 1
            && (!v.outs[n].err <==>
                 io.writeOk && Active(w.state).open && (Overflows(w.state, f) ==> io.syncOk && io.closeOk && io.createOk))
            && (!v.outs[n].err ==> v.outs[n].seg == if Overflows(w.state, f) then w.state.nextSeq else Active(w.state).seqNo)
  {
    RotateLog(w.state, io);
    hide Log;
  }

  lemma {:induction false} OneLogged(s: State, batch: seq<Frame>, ios: seq<Io>, f: Frame, io: Io)
    requires Inv(s) && |batch| == |ios|
    ensures var w, v := WriteAll(s, batch, ios), WriteAll(s, batch + [f], ios + [io]);
            var o := v.outs[|batch|];
            Log(v.state.segments) == Log(w.state.segments) + (if o.err then [] else [Located(f.rec, o.seg)])
  {
    var w, v := WriteAll(s, batch, ios), WriteAll(s, batch + [f], ios + [io]);
    var n := |batch|;
    WriteAllLog(s, batch, ios);
    WriteAllLog(s, batch + [f], ios + [io]);
    assert (batch + [f])[..n] == batch && (ios + [io])[..n] == ios;
    assert v == WriteOne(w, f, io) && v.outs[..n] == w.outs;
    hide Log, Inv, WriteAll, WriteOne, Shape, DurableLen;
    Assoc(Log(s.segments), WrittenLog(batch, w.outs), if v.outs[n].err then [] else [Located(f.rec, v.outs[n].seg)]);
  }

  // ---- Answered nil or not ----------------------------------------------------------------

  /** What a rotation has synced is behind the active segment, and nothing else that was written is. */
  ghost predicate SyncedIsBehind(w: Written) {
    && Inv(w.state) && |w.outs| == |w.synced|
    && forall i :: 0 <= i < |w.outs| && !w.outs[i].err ==>
         w.outs[i].seg <= Active(w.state).seqNo && (w.synced[i] <==> w.outs[i].seg != Active(w.state).seqNo)
  }

  lemma SyncedIsBehindNext(w: Written, f: Frame, io: Io)
    requires SyncedIsBehind(w) && Inv(WriteOne(w, f, io).state)
    ensures SyncedIsBehind(WriteOne(w, f, io))
  {
    RotateLog(w.state, io);
    hide Log, Inv;
  }

  lemma {:induction false} WriteAllSyncs(s: State, batch: seq<Frame>, ios: seq<Io>)
    requires Inv(s) && |batch| == |ios|
    ensures SyncedIsBehind(WriteAll(s, batch, ios))
  {
    if batch == [] {
    } else {
      var n := |batch| - 1;
      WriteAllSyncs(s, batch[..n], ios[..n]);
      WriteAllInv(s, batch, ios);
      hide SyncedIsBehind, WriteOne, Inv;
      SyncedIsBehindNext(WriteAll(s, batch[..n], ios[..n]), batch[n], ios[n]);
    }
  }

  /** Exactly when a request is answered nil, whatever fails in its batch: it was written, and either a
      rotation has since moved on to another segment, or the final sync of the active one succeeded. */
  lemma {:induction false} RepliesExactly(s: State, batch: seq<Frame>, ios: seq<Io>, syncOk: bool, i: nat)
    requires Inv(s) && |batch| == |ios| && i < |batch|
    ensures var w := WriteAll(s, batch, ios);
            && |Commit(s, batch, ios, syncOk).replies| == |batch|
            && (Commit(s, batch, ios, syncOk).replies[i] <==>
                 !w.outs[i].err && (w.outs[i].seg != Active(w.state).seqNo || (syncOk && Active(w.state).open)))
  {
    WriteAllSyncs(s, batch, ios);
    hide Inv;
  }
}
