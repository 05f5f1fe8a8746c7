/** The size cap of the log, which its documentation calls soft and approximate, made exact: by how
    much overlapping appends and acknowledgement records can push the files past it, and what restarts,
    after which the sizes of closed segments are not known, add to that. */
module SoftCap {
  import opened WalState
  import opened WalInvariant
  import opened WalRefinement
  import opened Seqs
  import G = WalGroupCommit

  // ---- Bytes counted and bytes on disk ----------------------------------------------------

  lemma {:induction false} TotalSame(a: seq<Segment>, b: seq<Segment>)
    requires |a| == |b| && forall i :: 0 <= i < |a| ==> a[i].size == b[i].size
    ensures TotalBytes(a) == TotalBytes(b)
  {
    if a == [] {
    } else {
      TotalSame(a[..|a| - 1], b[..|b| - 1]);
    }
  }

  /** The bytes in the files, whatever the size fields say. */
  function DiskBytes(segs: seq<Segment>): nat {
    if segs == [] then 0 else DiskBytes(segs[..|segs| - 1]) + TotalLen(segs[|segs| - 1].frames)
  }

  lemma {:induction false} DiskSame(a: seq<Segment>, b: seq<Segment>)
    requires |a| == |b| && forall i :: 0 <= i < |a| ==> a[i].frames == b[i].frames
    ensures DiskBytes(a) == DiskBytes(b)
  {
    if a == [] {
    } else {
      DiskSame(a[..|a| - 1], b[..|b| - 1]);
    }
  }

  /** The bytes the size fields do not know of. */
  function Hidden(segs: seq<Segment>): int {
    DiskBytes(segs) - TotalBytes(segs)
  }

  /** No size field says more than there is, segments are within the limit or hold one frame. */
  predicate Sized(g: Segment, maxSegmentBytes: int) {
    && (g.size == TotalLen(g.frames) || g.size == 0)
    && (TotalLen(g.frames) <= maxSegmentBytes || |g.frames| <= 1)
  }

  /** The size of the active segment is exact; of a closed one it may be 0 instead. */
  ghost predicate AllSized(s: State) {
    && s.segments != [] && Active(s).size == TotalLen(Active(s).frames)
    && forall i :: 0 <= i < |s.segments| ==> Sized(s.segments[i], s.maxSegmentBytes)
  }

  /** Deleting segments from the front lowers all three sums. */
  lemma {:induction false} SumsDrop(segs: seq<Segment>, k: nat)
    requires k <= |segs| && forall i :: 0 <= i < |segs| ==> segs[i].size <= TotalLen(segs[i].frames)
    ensures TotalBytes(segs[k..]) <= TotalBytes(segs)
    ensures DiskBytes(segs[k..]) <= DiskBytes(segs)
    ensures Hidden(segs[k..]) <= Hidden(segs)
  {
    if k < |segs| {
      SumsDrop(segs[..|segs| - 1], k);
      assert segs[k..][..|segs| - 1 - k] == segs[..|segs| - 1][k..];
    } else {
      SumsBounded(segs);
    }
  }

  lemma {:induction false} SumsBounded(segs: seq<Segment>)
    requires forall i :: 0 <= i < |segs| ==> segs[i].size <= TotalLen(segs[i].frames)
    ensures TotalBytes(segs) <= DiskBytes(segs)
  {
    if segs == [] {
    } else {
      SumsBounded(segs[..|segs| - 1]);
    }
  }

  // ---- What a commit does to them ---------------------------------------------------------

  /** The bytes a batch has written. */
  function WrittenLen(batch: seq<Frame>, outs: seq<Outcome>): nat
    requires |batch| == |outs|
  {
    if batch == [] then 0
    else
      var n := |batch| - 1;
      WrittenLen(batch[..n], outs[..n]) + (if outs[n].err then 0 else batch[n].len)
  }

  lemma TotalLenNext(frames: seq<Frame>, f: Frame)
    ensures TotalLen(frames + [f]) == TotalLen(frames) + f.len
  {
    assert (frames + [f])[..|frames|] == frames;
  }

  /** The sums after some writes, and what the outcomes so far add up to. */
  ghost predicate Grown(s: State, batch: seq<Frame>, w: Written) {
    && w.state.segments != [] && |batch| == |w.outs| == |w.synced|
    && TotalBytes(w.state.segments) == TotalBytes(s.segments) + WrittenLen(batch, w.outs)
    && DiskBytes(w.state.segments) == DiskBytes(s.segments) + WrittenLen(batch, w.outs)
  }

  lemma WrittenNext(batch: seq<Frame>, outs: seq<Outcome>, f: Frame, o: Outcome)
    requires |batch| == |outs|
    ensures WrittenLen(batch + [f], outs + [o]) == WrittenLen(batch, outs) + (if o.err then 0 else f.len)
  {
    TakeWithin(batch, [f], |batch|);
    TakeAll(batch);
    TakeWithin(outs, [o], |outs|);
    TakeAll(outs);
  }

  lemma LastReplaced(segs: seq<Segment>, g: Segment)
    requires segs != []
    ensures var n := |segs| - 1;
            && TotalBytes(segs[n := g]) == TotalBytes(segs) - segs[n].size + g.size
            && DiskBytes(segs[n := g]) == DiskBytes(segs) - TotalLen(segs[n].frames) + TotalLen(g.frames)
  {
    var n := |segs| - 1;
    assert segs[n := g][..n] == segs[..n];
    hide TotalLen;
  }

  lemma WriteFrameGrown(s: State, batch: seq<Frame>, w: Written, f: Frame, writeOk: bool)
    requires Grown(s, batch, w)
    ensures Grown(s, batch + [f], WriteFrame(w, f, writeOk))
  {
    hide WrittenLen, TotalLen, TotalBytes, DiskBytes;
    var a, v := Active(w.state), WriteFrame(w, f, writeOk);
    var o := Outcome(!(writeOk && a.open), a.seqNo);
    assert v.outs == w.outs + [o] && |v.synced| == |batch| + 1;
    WrittenNext(batch, w.outs, f, o);
    if o.err {
      assert v.state == w.state;
    } else {
      LastReplaced(w.state.segments, a.(frames := a.frames + [f], size := a.size + f.len));
      TotalLenNext(a.frames, f);
    }
  }

  lemma RotateSums(s: State, io: Io)
    requires s.segments != []
    ensures Rotate(s, io).state.segments != []
    ensures TotalBytes(Rotate(s, io).state.segments) == TotalBytes(s.segments)
    ensures DiskBytes(Rotate(s, io).state.segments) == DiskBytes(s.segments)
  {
    var t := Rotate(s, io).state.segments;
    TotalSame(t[..|s.segments|], s.segments);
    DiskSame(t[..|s.segments|], s.segments);
    if |t| > |s.segments| {
      assert t[..|t| - 1] == t[..|s.segments|];
    } else {
      TakeAll(t);
    }
  }

  lemma WriteOneGrown(s: State, batch: seq<Frame>, w: Written, f: Frame, io: Io)
    requires Grown(s, batch, w)
    ensures Grown(s, batch + [f], WriteOne(w, f, io))
  {
    var r := Rotate(w.state, io);
    RotateSums(w.state, io);
    hide Rotate, WriteFrame, WrittenLen, TotalBytes, DiskBytes;
    if Active(w.state).size + f.len <= w.state.maxSegmentBytes {
      WriteFrameGrown(s, batch, w, f, io.writeOk);
    } else if r.ok {
      WriteFrameGrown(s, batch, Written(r.state, w.outs, MarkSynced(w.outs, w.synced)), f, io.writeOk);
    } else {
      WrittenNext(batch, w.outs, f, Outcome(true, 0));
    }
  }

  lemma {:induction false} WriteAllGrown(s: State, batch: seq<Frame>, ios: seq<Io>)
    requires s.segments != [] && |batch| == |ios|
    ensures Grown(s, batch, WriteAll(s, batch, ios))
  {
    if batch == [] {
    } else {
      var n := |batch| - 1;
      WriteAllGrown(s, batch[..n], ios[..n]);
      hide Grown, WriteOne;
      SplitLast(batch);
      WriteOneGrown(s, batch[..n], WriteAll(s, batch[..n], ios[..n]), batch[n], ios[n]);
    }
  }

  lemma StripSums(a: seq<Segment>, b: seq<Segment>)
    requires Strip(a) == Strip(b)
    ensures TotalBytes(a) == TotalBytes(b) && DiskBytes(a) == DiskBytes(b)
  {
    assert |Strip(a)| == |Strip(b)|;
    forall i | 0 <= i < |a| ensures a[i].size == b[i].size && a[i].frames == b[i].frames {
      assert Strip(a)[i] == Strip(b)[i];
    }
    TotalSame(a, b);
    DiskSame(a, b);
  }

  /** The bytes the write loop of a batch has written. */
  function BytesOf(s: State, batch: seq<Frame>, ios: seq<Io>): nat
    requires s.segments != [] && |batch| == |ios|
  {
    WrittenLen(batch, WriteAll(s, batch, ios).outs)
  }

  /** Applying a batch adds its written bytes to both sums, exactly. */
  lemma AppliedSums(s: State, batch: seq<Frame>, ios: seq<Io>, syncOk: bool)
    requires Inv(s) && |batch| == |ios|
    ensures var a := Applied(s, batch, ios, syncOk);
            && TotalBytes(a.segments) == TotalBytes(s.segments) + BytesOf(s, batch, ios)
            && DiskBytes(a.segments) == DiskBytes(s.segments) + BytesOf(s, batch, ios)
  {
    var w, f := WriteAll(s, batch, ios), Flushed(s, batch, ios, syncOk);
    AppliedInv(s, batch, ios, syncOk);
    WriteAllGrown(s, batch, ios);
    TotalSame(f.segments, w.state.segments);
    DiskSame(f.segments, w.state.segments);
    hide Applied, WriteAll, Inv, TotalBytes, DiskBytes, WrittenLen, Present;
    StripSums(Applied(s, batch, ios, syncOk).segments, f.segments);
  }

  /** What a commit, or one that is cut off, adds to the sums is at most what it has written; hidden
      bytes can only become fewer. */
  lemma DroppedSums(s: State, batch: seq<Frame>, ios: seq<Io>, syncOk: bool, k: nat)
    requires Inv(s) && AllSized(s) && |batch| == |ios| && k <= Dropped(Applied(s, batch, ios, syncOk))
    ensures k < |Applied(s, batch, ios, syncOk).segments|
    ensures var t := DropFront(Applied(s, batch, ios, syncOk), k);
            && Inv(t) && AllSized(t) && t.maxSegmentBytes == s.maxSegmentBytes
            && TotalBytes(t.segments) <= TotalBytes(s.segments) + BytesOf(s, batch, ios)
            && DiskBytes(t.segments) <= DiskBytes(s.segments) + BytesOf(s, batch, ios)
            && Hidden(t.segments) <= Hidden(s.segments)
  {
    var a := Applied(s, batch, ios, syncOk);
    AppliedInv(s, batch, ios, syncOk);
    assert Hidden(a.segments) == Hidden(s.segments) by { AppliedSums(s, batch, ios, syncOk); }
    AppliedSums(s, batch, ios, syncOk);
    AppliedSized(s, batch, ios, syncOk);
    hide Applied, Inv, Dropped, TotalBytes, DiskBytes, TotalLen, Present, AllSized, Hidden, BytesOf;
    DropSomeInv(a, k);
    DropSized(a, k);
  }

  lemma DropSized(a: State, k: nat)
    requires AllSized(a) && k < |a.segments|
    ensures var t := DropFront(a, k);
            && AllSized(t)
            && TotalBytes(t.segments) <= TotalBytes(a.segments) && DiskBytes(t.segments) <= DiskBytes(a.segments)
            && Hidden(t.segments) <= Hidden(a.segments)
  {
    hide TotalBytes, DiskBytes, TotalLen, Hidden;
    forall i | 0 <= i < |a.segments| ensures a.segments[i].size <= TotalLen(a.segments[i].frames) {
      assert Sized(a.segments[i], a.maxSegmentBytes);
    }
    SumsDrop(a.segments, k);
  }

  lemma CommitTotal(s: State, batch: seq<Frame>, ios: seq<Io>, syncOk: bool)
    requires Inv(s) && AllSized(s) && |batch| == |ios|
    ensures var t := Commit(s, batch, ios, syncOk).state;
            && AllSized(t) && Inv(t)
            && TotalBytes(t.segments) <= TotalBytes(s.segments) + BytesOf(s, batch, ios)
            && DiskBytes(t.segments) <= DiskBytes(s.segments) + BytesOf(s, batch, ios)
            && Hidden(t.segments) <= Hidden(s.segments)
  {
    var a := Applied(s, batch, ios, syncOk);
    AppliedInv(s, batch, ios, syncOk);
    hide Applied, Inv, TotalBytes, DiskBytes, AllSized, BytesOf, Present, Hidden;
    GcInv(a);
    DroppedSums(s, batch, ios, syncOk, Dropped(a));
  }

  // ---- Segment sizes ----------------------------------------------------------------------

  lemma WriteFrameSized(w: Written, f: Frame, writeOk: bool)
    requires w.state.segments != [] && AllSized(w.state)
    requires Active(w.state).frames == [] || Active(w.state).size + f.len <= w.state.maxSegmentBytes
    ensures AllSized(WriteFrame(w, f, writeOk).state)
  {
    TotalLenNext(Active(w.state).frames, f);
    hide TotalLen;
  }

  lemma {:induction false} WriteAllSized(s: State, batch: seq<Frame>, ios: seq<Io>)
    requires Inv(s) && AllSized(s) && |batch| == |ios|
    ensures AllSized(WriteAll(s, batch, ios).state)
  {
    if batch == [] {
    } else {
      var n := |batch| - 1;
      WriteAllSized(s, batch[..n], ios[..n]);
      WriteAllInv(s, batch[..n], ios[..n]);
      WriteOneSized(WriteAll(s, batch[..n], ios[..n]), batch[n], ios[n]);
    }
  }

  lemma RotateSized(s: State, io: Io)
    requires Inv(s) && AllSized(s)
    ensures Rotate(s, io).state.segments != [] && AllSized(Rotate(s, io).state)
    ensures Rotate(s, io).ok ==> Active(Rotate(s, io).state).frames == []
  {
  }

  lemma WriteOneSized(w: Written, f: Frame, io: Io)
    requires Inv(w.state) && AllSized(w.state) && |w.outs| == |w.synced|
    ensures AllSized(WriteOne(w, f, io).state)
  {
    var r := Rotate(w.state, io);
    RotateSized(w.state, io);
    hide Rotate, WriteFrame, AllSized;
    if Active(w.state).size + f.len <= w.state.maxSegmentBytes {
      WriteFrameSized(w, f, io.writeOk);
    } else if r.ok {
      WriteFrameSized(Written(r.state, w.outs, MarkSynced(w.outs, w.synced)), f, io.writeOk);
    }
  }

  lemma AppliedSized(s: State, batch: seq<Frame>, ios: seq<Io>, syncOk: bool)
    requires Inv(s) && AllSized(s) && |batch| == |ios|
    ensures var a := Applied(s, batch, ios, syncOk); AllSized(a) && a.maxSegmentBytes == s.maxSegmentBytes
  {
    var f := Flushed(s, batch, ios, syncOk);
    var a := Applied(s, batch, ios, syncOk);
    WriteAllSized(s, batch, ios);
    AppliedInv(s, batch, ios, syncOk);
    WriteAllInv(s, batch, ios);
    assert AllSized(f);
    assert |Strip(a.segments)| == |Strip(f.segments)| && f.maxSegmentBytes == a.maxSegmentBytes == s.maxSegmentBytes;
    hide Applied, Flushed, WriteAll, Inv, Present, AllSized;
    forall i | 0 <= i < |a.segments| ensures a.segments[i].(refCount := 0) == f.segments[i].(refCount := 0) {
      assert Strip(a.segments)[i] == Strip(f.segments)[i];
    }
    SizedSame(f, a);
  }

  lemma SizedSame(s: State, t: State)
    requires AllSized(s) && |t.segments| == |s.segments| && t.maxSegmentBytes == s.maxSegmentBytes
    requires forall i :: 0 <= i < |s.segments| ==> t.segments[i].(refCount := 0) == s.segments[i].(refCount := 0)
    ensures AllSized(t)
  {
    hide TotalLen;
    forall i | 0 <= i < |t.segments|
      ensures t.segments[i].size == s.segments[i].size && t.segments[i].frames == s.segments[i].frames
    {
      assert t.segments[i].(refCount := 0) == s.segments[i].(refCount := 0);
    }
  }

  // ---- Restarts ---------------------------------------------------------------------------

  lemma {:induction false} TotalLenPrefix(frames: seq<Frame>, k: nat)
    requires k <= |frames|
    ensures TotalLen(frames[..k]) <= TotalLen(frames)
  {
    var n := |frames| - 1;
    if k <= n {
      TotalLenPrefix(frames[..n], k);
      TakeTake(frames, k, n);
    } else {
      TakeAll(frames);
    }
  }

  lemma {:induction false} NothingCounted(segs: seq<Segment>)
    requires forall i :: 0 <= i < |segs| ==> segs[i].size == 0
    ensures TotalBytes(segs) == 0
  {
    if segs == [] {
    } else {
      NothingCounted(segs[..|segs| - 1]);
    }
  }

  /** What startup finds has no more bytes than what the last process left. */
  lemma FoundSums(s: State, keep: nat, dur: nat)
    requires AllSized(s) && CutFits(Active(s), keep, dur)
    ensures var found := Survivors(s.segments, keep, dur);
            && DiskBytes(found) <= DiskBytes(s.segments) && found != []
            && TotalLen(found[|found| - 1].frames) <= Active(s).size
            && forall i :: 0 <= i < |found| ==> TotalLen(found[i].frames) <= s.maxSegmentBytes || |found[i].frames| <= 1
  {
    var found, n := Survivors(s.segments, keep, dur), |s.segments| - 1;
    TotalLenPrefix(Active(s).frames, keep);
    assert found[..n] == s.segments[..n] && found[n].frames == Active(s).frames[..keep];
    forall i | 0 <= i < n ensures TotalLen(found[i].frames) <= s.maxSegmentBytes || |found[i].frames| <= 1 {
      assert found[i] == s.segments[i];
      assert Sized(s.segments[i], s.maxSegmentBytes);
    }
    assert Sized(s.segments[n], s.maxSegmentBytes);
    hide TotalLen;
  }

  /** Startup counts the active file and nothing else. */
  lemma OpenSums(found: seq<Segment>, maxSegmentBytes: int)
    requires found != [] && Findable(found)
    requires forall i :: 0 <= i < |found| ==> TotalLen(found[i].frames) <= maxSegmentBytes || |found[i].frames| <= 1
    ensures var t := Open(found, maxSegmentBytes);
            && AllSized(t) && DiskBytes(t.segments) <= DiskBytes(found)
            && TotalBytes(t.segments) == TotalLen(found[|found| - 1].frames)
  {
    var r := Recovered(found, maxSegmentBytes);
    RecoveredSums(found, maxSegmentBytes);
    hide Recovered, Gc, TotalLen, Findable, Activate, AllSized, DiskBytes, TotalBytes;
    GcSums(r);
    ActivateSums(Gc(r));
  }

  /** A state as startup reads it: nothing counted, segments within the limit or of one frame. */
  ghost predicate Uncounted(s: State) {
    s.segments != [] && forall i :: 0 <= i < |s.segments| ==>
      && s.segments[i].size == 0
      && (TotalLen(s.segments[i].frames) <= s.maxSegmentBytes || |s.segments[i].frames| <= 1)
  }

  lemma GcSums(r: State)
    requires Uncounted(r)
    ensures Uncounted(Gc(r)) && Active(Gc(r)) == Active(r) && DiskBytes(Gc(r).segments) <= DiskBytes(r.segments)
  {
    GcDrops(r);
    var k := Dropped(r);
    hide Dropped, Gc, TotalLen, DiskBytes, TotalBytes, Hidden;
    SumsDrop(r.segments, k);
  }

  lemma RecoveredSums(found: seq<Segment>, maxSegmentBytes: int)
    requires found != []
    requires forall i :: 0 <= i < |found| ==> TotalLen(found[i].frames) <= maxSegmentBytes || |found[i].frames| <= 1
    ensures var r := Recovered(found, maxSegmentBytes);
            && Uncounted(r) && |r.segments| == |found| && DiskBytes(r.segments) == DiskBytes(found)
            && Active(r).frames == found[|found| - 1].frames
  {
    hide Count, TotalLen, Log;
    DiskSame(Recovered(found, maxSegmentBytes).segments, found);
  }

  lemma ActivateSums(g: State)
    requires Uncounted(g)
    ensures var t := Activate(g);
            && AllSized(t) && DiskBytes(t.segments) == DiskBytes(g.segments)
            && TotalBytes(t.segments) == TotalLen(Active(g).frames)
  {
    var t, n := Activate(g), |g.segments| - 1;
    hide TotalLen;
    DiskSame(t.segments, g.segments);
    NothingCounted(g.segments[..n]);
    assert t.segments[..n] == g.segments[..n];
  }

  /** A restart after any stop: the counted bytes shrink to the active file, the bytes on disk are at most
      those of before and what the batch that was cut off has written. */
  lemma RestartSums(s: State, cut: Cut)
    requires Inv(s) && AllSized(s) && CanCrash(s, cut)
    ensures var t := Open(Found(s, cut), s.maxSegmentBytes);
            && Inv(t) && AllSized(t) && t.maxSegmentBytes == s.maxSegmentBytes
            && TotalBytes(t.segments) <= TotalBytes(s.segments) + BytesOf(s, cut.batch, cut.ios)
            && DiskBytes(t.segments) <= DiskBytes(s.segments) + BytesOf(s, cut.batch, cut.ios)
  {
    DroppedSums(s, cut.batch, cut.ios, cut.syncOk, cut.dropped);
    FoundFindable(s, cut);
    var stopped := Stopped(s, cut);
    hide Applied, Inv, Dropped, BytesOf, AllSized, Findable, DiskBytes, TotalBytes, Open, Hidden, Survivors, Stopped;
    StartSums(stopped, cut.keep, cut.dur);
  }

  lemma StartSums(s: State, keep: nat, dur: nat)
    requires AllSized(s) && CutFits(Active(s), keep, dur) && Findable(Survivors(s.segments, keep, dur))
    ensures var t := Open(Survivors(s.segments, keep, dur), s.maxSegmentBytes);
            && Inv(t) && AllSized(t) && t.maxSegmentBytes == s.maxSegmentBytes
            && TotalBytes(t.segments) <= TotalBytes(s.segments) && DiskBytes(t.segments) <= DiskBytes(s.segments)
  {
    FoundSums(s, keep, dur);
    LastCounted(s.segments);
    hide Inv, TotalLen, AllSized, Findable, DiskBytes, TotalBytes, Open, Survivors;
    var found := Survivors(s.segments, keep, dur);
    OpenInv(found, s.maxSegmentBytes);
    OpenSums(found, s.maxSegmentBytes);
    OpenLimit(found, s.maxSegmentBytes);
  }

  lemma OpenLimit(segs: seq<Segment>, maxSegmentBytes: int)
    requires segs != []
    ensures Open(segs, maxSegmentBytes).maxSegmentBytes == maxSegmentBytes
  {
    GcDrops(Recovered(segs, maxSegmentBytes));
  }

  lemma LastCounted(segs: seq<Segment>)
    requires segs != []
    ensures segs[|segs| - 1].size <= TotalBytes(segs)
  {
  }

  // ---- Appends in flight ------------------------------------------------------------------

  ghost function Sum(m: multiset<Frame>): nat
    decreases |m|
  {
    if m == multiset{} then 0 else var f :| f in m; f.len + Sum(m - multiset{f})
  }

  lemma {:induction false} SumRemove(m: multiset<Frame>, f: Frame)
    requires f in m
    ensures Sum(m) == f.len + Sum(m - multiset{f})
    decreases |m|
  {
    var g :| g in m && Sum(m) == g.len + Sum(m - multiset{g});
    if g != f {
      hide Sum;
      assert f in m - multiset{g} && g in m - multiset{f};
      SumRemove(m - multiset{g}, f);
      SumRemove(m - multiset{f}, g);
      assert m - multiset{g} - multiset{f} == m - multiset{f} - multiset{g};
    }
  }

  lemma SumAdd(m: multiset<Frame>, f: Frame)
    ensures Sum(m + multiset{f}) == Sum(m) + f.len
  {
    SumRemove(m + multiset{f}, f);
    assert m + multiset{f} - multiset{f} == m;
  }

  lemma {:induction false} SumBound(m: multiset<Frame>, size: nat)
    requires forall f :: f in m ==> f.len <= size
    ensures Sum(m) <= |m| * size
    decreases |m|
  {
    if m == multiset{} {
    } else {
      var f :| f in m;
      SumRemove(m, f);
      SumBound(m - multiset{f}, size);
      MulNext(|m - multiset{f}|, |m|, size);
    }
  }

  lemma MulNext(a: nat, b: nat, c: int)
    requires b == a + 1
    ensures b * c == a * c + c
  {
  }

  function Events(batch: seq<Frame>): seq<Frame> {
    if batch == [] then []
    else
      var n := |batch| - 1;
      Events(batch[..n]) + (if batch[n].rec.EventRec? then [batch[n]] else [])
  }

  /** The bytes of acknowledgement records a batch has written. */
  function AckLen(batch: seq<Frame>, outs: seq<Outcome>): nat
    requires |batch| == |outs|
  {
    if batch == [] then 0
    else
      var n := |batch| - 1;
      AckLen(batch[..n], outs[..n]) + (if batch[n].rec.AckRec? && !outs[n].err then batch[n].len else 0)
  }

  /** Taking a batch's event frames out of the appends in flight takes out at least the bytes written
      of them. */
  lemma {:induction false} SumEvents(m: multiset<Frame>, batch: seq<Frame>, outs: seq<Outcome>)
    requires |batch| == |outs| && multiset(Events(batch)) <= m
    ensures Sum(m - multiset(Events(batch))) + WrittenLen(batch, outs) <= Sum(m) + AckLen(batch, outs)
  {
    hide Sum;
    if batch == [] {
      assert m - multiset(Events(batch)) == m;
    } else {
      var n := |batch| - 1;
      EventsNext(batch);
      LensNext(batch, outs);
      hide Events, WrittenLen, AckLen;
      SumEvents(m, batch[..n], outs[..n]);
      if batch[n].rec.EventRec? {
        SumTake(m, multiset(Events(batch[..n])), batch[n]);
      }
    }
  }

  lemma LensNext(batch: seq<Frame>, outs: seq<Outcome>)
    requires |batch| == |outs| && batch != []
    ensures var n := |batch| - 1;
            && WrittenLen(batch, outs) == WrittenLen(batch[..n], outs[..n]) + (if outs[n].err then 0 else batch[n].len)
            && AckLen(batch, outs) ==
               AckLen(batch[..n], outs[..n]) + (if batch[n].rec.AckRec? && !outs[n].err then batch[n].len else 0)
  {
  }

  lemma EventsNext(batch: seq<Frame>)
    requires batch != []
    ensures var n := |batch| - 1;
            var e := multiset(Events(batch[..n]));
            multiset(Events(batch)) == (if batch[n].rec.EventRec? then e + multiset{batch[n]} else e)
  {
    assert Events(batch[..|batch| - 1]) + [] == Events(batch[..|batch| - 1]);
  }

  lemma SumTake(m: multiset<Frame>, e: multiset<Frame>, f: Frame)
    requires e + multiset{f} <= m
    ensures Sum(m - (e + multiset{f})) + f.len == Sum(m - e)
  {
    SumRemove(m - e, f);
    assert m - e - multiset{f} == m - (e + multiset{f});
  }

  /** A daemon: its log, the appends past their size check but not yet answered, the bytes of
      acknowledgement records it has written, and how often it was restarted. */
  datatype Process = Process(log: State, inFlight: multiset<Frame>, ackBytes: nat, restarts: nat)

  datatype Step =
    | Admit(f: Frame)
    | CommitStep(batch: seq<Frame>, ios: seq<Io>, syncOk: bool)
    | RestartStep(cut: Cut)

  datatype Limits = Limits(maxBytes: int, overlap: nat, frameSize: nat)

  /** An append of at most `frameSize` bytes passes the check while fewer than `overlap` others are
      in flight; a batch is made of appends in flight and acknowledgements. */
  predicate Enabled(p: Process, st: Step, lim: Limits) {
    && p.log.segments != []
    && match st
       case Admit(f) =>
         f.rec.EventRec? && f.len <= lim.frameSize && |p.inFlight| < lim.overlap
         && TotalBytes(p.log.segments) + f.len <= lim.maxBytes
       case CommitStep(batch, ios, _) =>
         |batch| == |ios| && multiset(Events(batch)) <= p.inFlight
       case RestartStep(cut) =>
         CanCrash(p.log, cut) && multiset(Events(cut.batch)) <= p.inFlight
  }

  function AckBytes(s: State, batch: seq<Frame>, ios: seq<Io>): nat
    requires s.segments != [] && |batch| == |ios|
  {
    AckLen(batch, WriteAll(s, batch, ios).outs)
  }

  function Next(p: Process, st: Step, lim: Limits): Process
    requires Enabled(p, st, lim)
  {
    match st
    case Admit(f) => p.(inFlight := p.inFlight + multiset{f})
    case CommitStep(batch, ios, syncOk) =>
      p.(log := Commit(p.log, batch, ios, syncOk).state, inFlight := p.inFlight - multiset(Events(batch)),
         ackBytes := p.ackBytes + AckBytes(p.log, batch, ios))
    case RestartStep(cut) =>
      Process(Open(Found(p.log, cut), p.log.maxSegmentBytes), multiset{},
              p.ackBytes + AckBytes(p.log, cut.batch, cut.ios), p.restarts + 1)
  }

  ghost predicate IsRun(run: seq<Process>, steps: seq<Step>, lim: Limits, maxSegmentBytes: int) {
    && |run| == |steps| + 1
    && run[0] == Process(Open([], maxSegmentBytes), multiset{}, 0, 0)
    && forall i :: 0 <= i < |steps| ==> Enabled(run[i], steps[i], lim) && run[i + 1] == Next(run[i], steps[i], lim)
  }

  function Allowance(lim: Limits): int {
    lim.maxBytes + (lim.overlap - 1) * lim.frameSize
  }

  ghost predicate InFlightFits(p: Process, lim: Limits) {
    |p.inFlight| <= lim.overlap && (forall f :: f in p.inFlight ==> f.len <= lim.frameSize)
  }

  /** `scaled` is restarts times the allowance. */
  ghost predicate Capped(p: Process, lim: Limits, scaled: int) {
    && Inv(p.log) && AllSized(p.log) && InFlightFits(p, lim)
    && TotalBytes(p.log.segments) + Sum(p.inFlight) <= Allowance(lim) + p.ackBytes
    && DiskBytes(p.log.segments) + Sum(p.inFlight) <= scaled + Allowance(lim) + p.ackBytes
    && Hidden(p.log.segments) <= scaled + p.ackBytes
  }

  predicate SaneLimits(lim: Limits) {
    lim.maxBytes > 0 && lim.overlap > 0
  }

  lemma MulMonotone(a: nat, b: nat, c: nat)
    requires a <= b
    ensures a * c <= b * c
  {
  }

  lemma AllowanceCovers(p: Process, lim: Limits)
    requires SaneLimits(lim) && |p.inFlight| < lim.overlap && forall f :: f in p.inFlight ==> f.len <= lim.frameSize
    ensures Sum(p.inFlight) + lim.maxBytes <= Allowance(lim)
  {
    SumBound(p.inFlight, lim.frameSize);
    MulMonotone(|p.inFlight|, lim.overlap - 1, lim.frameSize);
  }

  lemma AdmitCapped(p: Process, f: Frame, lim: Limits, scaled: int)
    requires Capped(p, lim, scaled) && SaneLimits(lim) && Enabled(p, Admit(f), lim)
    ensures Capped(Next(p, Admit(f), lim), lim, scaled)
  {
    AllowanceCovers(p, lim);
    hide Inv, AllSized, Allowance, TotalBytes, DiskBytes, Sum;
    SumAdd(p.inFlight, f);
    assert |p.inFlight + multiset{f}| == |p.inFlight| + 1;
  }

  lemma CommitCapped(p: Process, batch: seq<Frame>, ios: seq<Io>, syncOk: bool, lim: Limits, scaled: int)
    requires Capped(p, lim, scaled) && Enabled(p, Step.CommitStep(batch, ios, syncOk), lim)
    ensures Capped(Next(p, Step.CommitStep(batch, ios, syncOk), lim), lim, scaled)
  {
    hide Inv, AllSized, Commit, Sum, TotalBytes, DiskBytes, Hidden, Allowance, WriteAll, Events;
    CommitTotal(p.log, batch, ios, syncOk);
    SumEvents(p.inFlight, batch, WriteAll(p.log, batch, ios).outs);
    FewerFits(p, multiset(Events(batch)), lim);
  }

  lemma FewerFits(p: Process, less: multiset<Frame>, lim: Limits)
    requires InFlightFits(p, lim) && less <= p.inFlight
    ensures |p.inFlight - less| <= lim.overlap && forall f :: f in p.inFlight - less ==> f.len <= lim.frameSize
  {
  }

  lemma RestartCapped(p: Process, cut: Cut, lim: Limits, scaled: int)
    requires Capped(p, lim, scaled) && SaneLimits(lim) && Enabled(p, RestartStep(cut), lim)
    ensures Capped(Next(p, RestartStep(cut), lim), lim, scaled + Allowance(lim))
  {
    hide Capped, Inv, AllSized, Open, Found, Stopped, Sum, TotalBytes, DiskBytes, Allowance, Hidden, BytesOf, AckBytes, Events,
      Next, WriteAll, Applied, Dropped, CutFits;
    CappedLog(p, lim, scaled);
    var log := Open(Found(p.log, cut), p.log.maxSegmentBytes);
    var acks := AckBytes(p.log, cut.batch, cut.ios);
    RestartIs(p, cut, lim);
    RestartSums(p.log, cut);
    BatchInFlight(p, cut.batch, cut.ios);
    StartedCapped(p, log, BytesOf(p.log, cut.batch, cut.ios), acks, lim, scaled);
  }

  lemma RestartIs(p: Process, cut: Cut, lim: Limits)
    requires Enabled(p, RestartStep(cut), lim)
    ensures Next(p, RestartStep(cut), lim) ==
            Process(Open(Found(p.log, cut), p.log.maxSegmentBytes), multiset{},
                    p.ackBytes + AckBytes(p.log, cut.batch, cut.ios), p.restarts + 1)
  {
    hide Open, Found, AckBytes;
  }

  lemma CappedLog(p: Process, lim: Limits, scaled: int)
    requires Capped(p, lim, scaled)
    ensures Inv(p.log) && AllSized(p.log)
  {
  }

  /** What a batch of appends in flight and acknowledgements has written. */
  lemma BatchInFlight(p: Process, batch: seq<Frame>, ios: seq<Io>)
    requires p.log.segments != [] && |batch| == |ios| && multiset(Events(batch)) <= p.inFlight
    ensures BytesOf(p.log, batch, ios) <= Sum(p.inFlight) + AckBytes(p.log, batch, ios)
  {
    hide WriteAll, Sum;
    SumEvents(p.inFlight, batch, WriteAll(p.log, batch, ios).outs);
  }

  lemma StartedCapped(p: Process, log: State, written: nat, acks: nat, lim: Limits, scaled: int)
    requires Capped(p, lim, scaled) && SaneLimits(lim) && Inv(log) && AllSized(log)
    requires written <= Sum(p.inFlight) + acks
    requires TotalBytes(log.segments) <= TotalBytes(p.log.segments) + written
    requires DiskBytes(log.segments) <= DiskBytes(p.log.segments) + written
    ensures Capped(Process(log, multiset{}, p.ackBytes + acks, p.restarts + 1), lim, scaled + Allowance(lim))
  {
    AllowanceCovers(p.(inFlight := multiset{}), lim);
    NoneInFlight();
    hide Inv, AllSized, Sum, TotalBytes, DiskBytes, Allowance;
  }

  lemma NoneInFlight()
    ensures Sum(multiset{}) == 0
  {
  }

  lemma NextCapped(p: Process, st: Step, lim: Limits, scaled: int)
    requires Capped(p, lim, scaled) && SaneLimits(lim) && Enabled(p, st, lim)
    ensures Capped(Next(p, st, lim), lim, if st.RestartStep? then scaled + Allowance(lim) else scaled)
  {
    match st
    case Admit(f) => AdmitCapped(p, f, lim, scaled);
    case CommitStep(batch, ios, syncOk) => CommitCapped(p, batch, ios, syncOk, lim, scaled);
    case RestartStep(cut) => RestartCapped(p, cut, lim, scaled);
  }

  lemma FreshCapped(lim: Limits, maxSegmentBytes: int)
    requires SaneLimits(lim)
    ensures Capped(Process(Open([], maxSegmentBytes), multiset{}, 0, 0), lim, 0)
  {
    FreshInv(maxSegmentBytes);
    assert TotalBytes([EmptySegment(0)]) == 0 && DiskBytes([EmptySegment(0)]) == 0;
    MulMonotone(0, lim.overlap - 1, lim.frameSize);
  }

  lemma {:induction false} RunCapped(run: seq<Process>, steps: seq<Step>, lim: Limits, maxSegmentBytes: int, i: nat)
    requires IsRun(run, steps, lim, maxSegmentBytes) && SaneLimits(lim) && i < |run|
    ensures Capped(run[i], lim, run[i].restarts * Allowance(lim))
  {
    hide Open, Capped, Enabled, Allowance;
    if i == 0 {
      FreshCapped(lim, maxSegmentBytes);
    } else {
      RunCapped(run, steps, lim, maxSegmentBytes, i - 1);
      NextCapped(run[i - 1], steps[i - 1], lim, run[i - 1].restarts * Allowance(lim));
      NextRestarts(run[i - 1], steps[i - 1], lim);
      if steps[i - 1].RestartStep? {
        MulNext(run[i - 1].restarts, run[i].restarts, Allowance(lim));
      }
    }
  }

  lemma NextRestarts(p: Process, st: Step, lim: Limits)
    requires Enabled(p, st, lim)
    ensures Next(p, st, lim).restarts == if st.RestartStep? then p.restarts + 1 else p.restarts
  {
  }

  /** The cap, with maxBytes > 0, at most `overlap` appends between their check and their answer and event
      frames of at most `frameSize` bytes. Whatever fails and however often the daemon is restarted, the
      bytes it counts never exceed maxBytes by more than overlap - 1 frames and the acknowledgement records
      written, which are not checked at all. The bytes on disk can exceed that once more per restart,
      since of the files a restart finds it counts only the active one. */
  lemma SoftCapExact(run: seq<Process>, steps: seq<Step>, lim: Limits, maxSegmentBytes: int, i: nat)
    requires IsRun(run, steps, lim, maxSegmentBytes) && SaneLimits(lim) && i < |run|
    ensures TotalBytes(run[i].log.segments) <= lim.maxBytes + (lim.overlap - 1) * lim.frameSize + run[i].ackBytes
    ensures DiskBytes(run[i].log.segments) <=
            (run[i].restarts + 1) * (lim.maxBytes + (lim.overlap - 1) * lim.frameSize) + run[i].ackBytes
  {
    RunCapped(run, steps, lim, maxSegmentBytes, i);
    MulNext(run[i].restarts, run[i].restarts + 1, Allowance(lim));
  }

  /** In every state of every run each segment is within the limit or holds a single frame; its size field
      is the number of bytes in it, or 0 for a closed segment that a restart has found. */
  lemma RunSized(run: seq<Process>, steps: seq<Step>, lim: Limits, maxSegmentBytes: int, i: nat)
    requires IsRun(run, steps, lim, maxSegmentBytes) && SaneLimits(lim) && i < |run|
    ensures AllSized(run[i].log)
  {
    RunCapped(run, steps, lim, maxSegmentBytes, i);
  }

  // ---- A run that reaches the cap ---------------------------------------------------------

  function Copies(f: Frame, n: nat): seq<Frame> {
    seq(n, _ => f)
  }

  /** The appends admitted, all while nothing is written yet, and an acknowledgement. */
  function FullBatch(f: Frame, ack: Frame, overlap: nat): seq<Frame> {
    Copies(f, overlap) + [ack]
  }

  function FullSteps(f: Frame, ack: Frame, overlap: nat): seq<Step> {
    seq(overlap, i => Admit(f)) + [Step.CommitStep(FullBatch(f, ack, overlap), G.Healthy(overlap + 1), true)]
  }

  function FullRun(f: Frame, ack: Frame, overlap: nat, maxSegmentBytes: int): seq<Process> {
    var s, batch := Open([], maxSegmentBytes), FullBatch(f, ack, overlap);
    var full := if s.segments == [] then s else Commit(s, batch, G.Healthy(|batch|), true).state;
    seq(overlap + 1, i requires 0 <= i < overlap + 1 => Process(s, multiset(Copies(f, i)), 0, 0)) +
    [Process(full, multiset{}, ack.len, 0)]
  }

  lemma {:induction false} CopiesLen(f: Frame, n: nat)
    ensures TotalLen(Copies(f, n)) == n * f.len
  {
    if n > 0 {
      CopiesLen(f, n - 1);
      assert Copies(f, n)[..n - 1] == Copies(f, n - 1);
      MulNext(n - 1, n, f.len);
    }
  }

  lemma {:induction false} EventsOnly(batch: seq<Frame>, outs: seq<Outcome>)
    requires |batch| == |outs| && forall i :: 0 <= i < |batch| ==> batch[i].rec.EventRec?
    ensures Events(batch) == batch && AckLen(batch, outs) == 0
  {
    if batch != [] {
      var n := |batch| - 1;
      EventsOnly(batch[..n], outs[..n]);
      SplitLast(batch);
    }
  }

  lemma {:induction false} WriteAllFits(s: State, batch: seq<Frame>, ios: seq<Io>)
    requires s.segments == [EmptySegment(0)] && |batch| == |ios| && TotalLen(batch) <= s.maxSegmentBytes
    requires forall i :: 0 <= i < |ios| ==> ios[i] == G.ALL_OK
    ensures var w := WriteAll(s, batch, ios);
            && w.state == s.(segments := [Segment(0, batch, 0, TotalLen(batch), true, 0)])
            && forall i :: 0 <= i < |batch| ==> !w.outs[i].err
  {
    if batch == [] {
    } else {
      var n := |batch| - 1;
      WriteAllLast(s, batch, ios);
      SplitLast(batch);
      hide WriteOne, WriteAll, TotalLen;
      WriteAllFits(s, batch[..n], ios[..n]);
      WriteOneFits(s, WriteAll(s, batch[..n], ios[..n]), batch[..n], batch[n]);
    }
  }

  lemma {:induction false} WriteAllLast(s: State, batch: seq<Frame>, ios: seq<Io>)
    requires s.segments != [] && |batch| == |ios| && batch != []
    ensures var n := |batch| - 1;
            && WriteAll(s, batch, ios) == WriteOne(WriteAll(s, batch[..n], ios[..n]), batch[n], ios[n])
            && TotalLen(batch) == TotalLen(batch[..n]) + batch[n].len
  {
    hide WriteOne;
  }

  lemma WriteOneFits(s: State, w: Written, frames: seq<Frame>, f: Frame)
    requires w.state == s.(segments := [Segment(0, frames, 0, TotalLen(frames), true, 0)])
    requires |w.outs| == |w.synced| && TotalLen(frames) + f.len <= s.maxSegmentBytes
    ensures var v := WriteOne(w, f, G.ALL_OK);
            && v.state == s.(segments := [Segment(0, frames + [f], 0, TotalLen(frames) + f.len, true, 0)])
            && v.outs == w.outs + [Outcome(false, 0)]
  {
    hide TotalLen, Rotate;
  }

  lemma {:induction false} AllWritten(batch: seq<Frame>, outs: seq<Outcome>)
    requires |batch| == |outs| && forall i :: 0 <= i < |outs| ==> !outs[i].err
    ensures WrittenLen(batch, outs) == TotalLen(batch)
  {
    if batch == [] {
    } else {
      AllWritten(batch[..|batch| - 1], outs[..|batch| - 1]);
    }
  }

  /** Committed on a fresh log that has room for it in one segment, a batch is counted whole. */
  lemma {:induction false} CommitFits(batch: seq<Frame>, maxSegmentBytes: int)
    requires TotalLen(batch) <= maxSegmentBytes
    ensures var s := Open([], maxSegmentBytes);
            && s.segments != []
            && TotalBytes(Commit(s, batch, G.Healthy(|batch|), true).state.segments) == TotalLen(batch)
            && forall i :: 0 <= i < |batch| ==> !WriteAll(s, batch, G.Healthy(|batch|)).outs[i].err
  {
    FreshInv(maxSegmentBytes);
    var s, ios := Open([], maxSegmentBytes), G.Healthy(|batch|);
    assert TotalBytes([EmptySegment(0)]) == 0;
    WriteAllFits(s, batch, ios);
    AllWritten(batch, WriteAll(s, batch, ios).outs);
    AppliedInv(s, batch, ios, true);
    StripNumbers(Applied(s, batch, ios, true).segments, Flushed(s, batch, ios, true).segments);
    assert |Applied(s, batch, ios, true).segments| == 1;
    hide Applied, WriteAll, TotalLen, TotalBytes, Inv, Open;
    AppliedSums(s, batch, ios, true);
  }

  lemma {:induction false} FullAck(f: Frame, ack: Frame, overlap: nat, outs: seq<Outcome>)
    requires f.rec.EventRec? && ack.rec.AckRec? && |outs| == overlap + 1 && forall i :: 0 <= i < |outs| ==> !outs[i].err
    ensures var batch := FullBatch(f, ack, overlap);
            && |batch| == overlap + 1 && TotalLen(batch) == overlap * f.len + ack.len
            && Events(batch) == Copies(f, overlap) && AckLen(batch, outs) == ack.len
  {
    CopiesLen(f, overlap);
    assert FullBatch(f, ack, overlap)[..overlap] == Copies(f, overlap);
    EventsOnly(Copies(f, overlap), outs[..overlap]);
    assert Events(Copies(f, overlap)) + [] == Copies(f, overlap);
  }

  lemma FullAdmits(f: Frame, ack: Frame, overlap: nat, maxSegmentBytes: int, i: nat)
    requires f.rec.EventRec? && f.len > 0 && i < overlap
    ensures var lim := Limits(f.len, overlap, f.len);
            var run, steps := FullRun(f, ack, overlap, maxSegmentBytes), FullSteps(f, ack, overlap);
            Enabled(run[i], steps[i], lim) && run[i + 1] == Next(run[i], steps[i], lim)
  {
    FreshInv(maxSegmentBytes);
    assert TotalBytes([EmptySegment(0)]) == 0;
    hide Open, Commit;
    assert Copies(f, i + 1) == Copies(f, i) + [f];
    assert multiset(Copies(f, i + 1)) == multiset(Copies(f, i)) + multiset{f};
  }

  lemma FullEnds(f: Frame, ack: Frame, overlap: nat, maxSegmentBytes: int)
    requires Open([], maxSegmentBytes).segments != []
    ensures var run, steps := FullRun(f, ack, overlap, maxSegmentBytes), FullSteps(f, ack, overlap);
            var s, batch := Open([], maxSegmentBytes), FullBatch(f, ack, overlap);
            && |run| == overlap + 2 && |steps| == overlap + 1 && run[0] == Process(s, multiset{}, 0, 0)
            && |batch| == overlap + 1 == |G.Healthy(overlap + 1)|
            && steps[overlap] == Step.CommitStep(batch, G.Healthy(overlap + 1), true)
            && run[overlap] == Process(s, multiset(Copies(f, overlap)), 0, 0)
            && run[overlap + 1] == Process(Commit(s, batch, G.Healthy(overlap + 1), true).state, multiset{}, ack.len, 0)
  {
    hide Open, Commit;
  }

  lemma FullCommit(f: Frame, ack: Frame, overlap: nat, maxSegmentBytes: int)
    requires f.rec.EventRec? && ack.rec.AckRec? && f.len > 0 && overlap * f.len + ack.len <= maxSegmentBytes
    ensures var lim := Limits(f.len, overlap, f.len);
            var run, steps := FullRun(f, ack, overlap, maxSegmentBytes), FullSteps(f, ack, overlap);
            && Enabled(run[overlap], steps[overlap], lim) && run[overlap + 1] == Next(run[overlap], steps[overlap], lim)
            && TotalBytes(run[overlap + 1].log.segments) == overlap * f.len + ack.len
  {
    var batch := FullBatch(f, ack, overlap);
    FullAck(f, ack, overlap, seq(overlap + 1, i => Outcome(false, 0)));
    CommitFits(batch, maxSegmentBytes);
    FullAck(f, ack, overlap, WriteAll(Open([], maxSegmentBytes), batch, G.Healthy(|batch|)).outs);
    FullEnds(f, ack, overlap, maxSegmentBytes);
    hide Commit, Open, WriteAll, TotalLen, TotalBytes, AckLen, Events, FullBatch, Copies, G.Healthy, FullRun, FullSteps;
    assert multiset(Copies(f, overlap)) - multiset(Copies(f, overlap)) == multiset{};
  }

  lemma FullIsRun(f: Frame, ack: Frame, overlap: nat, maxSegmentBytes: int)
    requires f.rec.EventRec? && ack.rec.AckRec? && f.len > 0 && overlap * f.len + ack.len <= maxSegmentBytes
    ensures IsRun(FullRun(f, ack, overlap, maxSegmentBytes), FullSteps(f, ack, overlap), Limits(f.len, overlap, f.len),
                  maxSegmentBytes)
  {
    var lim, run, steps := Limits(f.len, overlap, f.len), FullRun(f, ack, overlap, maxSegmentBytes), FullSteps(f, ack, overlap);
    FullEndsOpen(f, ack, overlap, maxSegmentBytes);
    FullCommit(f, ack, overlap, maxSegmentBytes);
    hide Open, FullRun, FullSteps, Enabled, Next, TotalBytes;
    forall i | 0 <= i < overlap ensures Enabled(run[i], steps[i], lim) && run[i + 1] == Next(run[i], steps[i], lim) {
      FullAdmits(f, ack, overlap, maxSegmentBytes, i);
    }
  }

  lemma FullEndsOpen(f: Frame, ack: Frame, overlap: nat, maxSegmentBytes: int)
    ensures var run, steps := FullRun(f, ack, overlap, maxSegmentBytes), FullSteps(f, ack, overlap);
            && |run| == overlap + 2 && |steps| == overlap + 1
            && run[0] == Process(Open([], maxSegmentBytes), multiset{}, 0, 0)
  {
    FreshInv(maxSegmentBytes);
    FullEnds(f, ack, overlap, maxSegmentBytes);
    hide FullRun, FullSteps, Open;
  }

  /** The cap is met: with any overlap, frame size and acknowledgement, and room for the frames in a
      segment, there is a run that ends exactly on it. */
  lemma CapIsReached(f: Frame, ack: Frame, overlap: nat, maxSegmentBytes: int)
    requires f.rec.EventRec? && ack.rec.AckRec? && f.len > 0 && overlap > 0
    requires overlap * f.len + ack.len <= maxSegmentBytes
    ensures var lim, run := Limits(f.len, overlap, f.len), FullRun(f, ack, overlap, maxSegmentBytes);
            var last := run[overlap + 1];
            && SaneLimits(lim) && IsRun(run, FullSteps(f, ack, overlap), lim, maxSegmentBytes)
            && last.ackBytes == ack.len
            && TotalBytes(last.log.segments) == lim.maxBytes + (lim.overlap - 1) * lim.frameSize + last.ackBytes
  {
    FreshInv(maxSegmentBytes);
    FullEnds(f, ack, overlap, maxSegmentBytes);
    hide Open, FullRun, FullSteps, Enabled, Next, TotalBytes, Copies, Inv, IsRun, FullBatch, Commit, G.Healthy;
    FullIsRun(f, ack, overlap, maxSegmentBytes);
    FullCommit(f, ack, overlap, maxSegmentBytes);
    MulNext(overlap - 1, overlap, f.len);
  }
}
