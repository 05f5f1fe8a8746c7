/** Group commit refines serial commit: however a stream of requests is cut into batches, the log
    ends with the same index, reference counts, segments and segment contents. */
module WalGroupCommit {
  import opened Types
  import opened WalLog
  import opened WalState
  import opened WalInvariant
  import opened WalRefinement
  import opened Seqs

  const ALL_OK := Io(true, true, true, true)

  function Healthy(n: nat): seq<Io> {
    seq(n, _ => ALL_OK)
  }

  /** One batch in a run without faults. */
  function Group(s: State, batch: seq<Frame>): State
    requires s.segments != []
  {
    Commit(s, batch, Healthy(|batch|), true).state
  }

  /** The batches one after the other. */
  ghost function Groups(s: State, batches: seq<seq<Frame>>): State
    requires Good(s)
    ensures Good(Groups(s, batches))
  {
    if batches == [] then s
    else
      var n := |batches| - 1;
      GroupGood(Groups(s, batches[..n]), batches[n]);
      Group(Groups(s, batches[..n]), batches[n])
  }

  function Flatten(batches: seq<seq<Frame>>): seq<Frame> {
    if batches == [] then [] else Flatten(batches[..|batches| - 1]) + batches[|batches| - 1]
  }

  ghost predicate Good(s: State) {
    Inv(s) && Active(s).open
  }

  // ---- One request at a time, without sync or garbage collection --------------------------

  function Write1(s: State, f: Frame): State
    requires s.segments != []
  {
    WriteOne(Written(s, [], []), f, ALL_OK).state
  }

  function Serial1(s: State, f: Frame): (t: State)
    requires s.segments != []
  {
    var u := Write1(s, f);
    ApplyOne(u, f.rec, Active(u).seqNo)
  }

  ghost function Core(s: State, batch: seq<Frame>): State
    requires Good(s)
    ensures Good(Core(s, batch))
  {
    if batch == [] then s
    else
      var n := |batch| - 1;
      Serial1Good(Core(s, batch[..n]), batch[n]);
      Serial1(Core(s, batch[..n]), batch[n])
  }

  lemma Write1Good(s: State, f: Frame)
    requires Good(s)
    ensures Good(Write1(s, f)) && Write1(s, f).index == s.index
  {
    WriteOneInv(s, Written(s, [], []), f, ALL_OK);
    RotateLog(s, ALL_OK);
  }

  lemma Serial1Good(s: State, f: Frame)
    requires Good(s)
    ensures Good(Serial1(s, f))
  {
    Write1Good(s, f);
    var u := Write1(s, f);
    ApplyOneInv(u, f.rec, Active(u).seqNo);
    assert Strip(Serial1(s, f).segments)[|u.segments| - 1] == Strip(u.segments)[|u.segments| - 1];
  }

  lemma GroupGood(s: State, batch: seq<Frame>)
    requires Good(s)
    ensures Good(Group(s, batch))
  {
    GroupIsCore(s, batch);
    GcInv(FinalSync(Core(s, batch), true));
  }

  // ---- A normal form ----------------------------------------------------------------------

  /** The files, without the reference counts, which the index determines, and with the active one
      synced, as the next sync or rotation will leave it. */
  function FilesOf(s: State): seq<Segment>
    requires s.segments != []
  {
    Strip(s.segments[..|s.segments| - 1]) + [Active(s).(durable := |Active(s).frames|, refCount := 0)]
  }

  ghost predicate SameFiles(s: State, t: State) {
    && s.segments != [] && t.segments != []
    && FilesOf(s) == FilesOf(t) && s.nextSeq == t.nextSeq && s.maxSegmentBytes == t.maxSegmentBytes
  }

  ghost predicate SameKey(s: State, t: State) {
    SameFiles(s, t) && s.index == t.index
  }

  lemma FilesAgree(s: State, t: State)
    requires SameFiles(s, t)
    ensures |s.segments| == |t.segments|
    ensures Active(s).(durable := |Active(s).frames|, refCount := 0) == Active(t).(durable := |Active(t).frames|, refCount := 0)
    ensures Strip(s.segments[..|s.segments| - 1]) == Strip(t.segments[..|t.segments| - 1])
  {
    var n := |s.segments| - 1;
    assert |FilesOf(s)| == n + 1 && |FilesOf(t)| == |t.segments|;
    assert FilesOf(s)[n] == FilesOf(t)[n];
    TakeWithin(Strip(s.segments[..n]), FilesOf(s)[n..], n);
    TakeAll(Strip(s.segments[..n]));
    TakeWithin(Strip(t.segments[..n]), FilesOf(t)[n..], n);
    TakeAll(Strip(t.segments[..n]));
  }

  /** Good states with the same files and index agree once synced. */
  lemma KeyDetermines(s: State, t: State)
    requires Good(s) && Good(t) && SameKey(s, t)
    ensures FinalSync(s, true) == FinalSync(t, true)
  {
    FilesAgree(s, t);
    var n := |s.segments| - 1;
    forall i | 0 <= i < n ensures s.segments[i] == t.segments[i] {
      assert Strip(s.segments[..n])[i] == Strip(t.segments[..n])[i];
    }
  }

  lemma StripAppend(segs: seq<Segment>, g: Segment)
    ensures Strip(segs + [g]) == Strip(segs) + [g.(refCount := 0)]
  {
  }

  /** Where one write leaves the files. */
  lemma Write1Files(s: State, f: Frame)
    requires Good(s)
    ensures var a := Active(s).(durable := |Active(s).frames|, refCount := 0);
            var front := Strip(s.segments[..|s.segments| - 1]);
            var w := Write1(s, f);
            && w.segments != []
            && FilesOf(w) ==
               (if a.size + f.len > s.maxSegmentBytes
                then front + [a.(open := false)] + [Segment(s.nextSeq, [f], 1, f.len, true, 0)]
                else front + [a.(frames := a.frames + [f], durable := |a.frames| + 1, size := a.size + f.len)])
            && w.nextSeq == (if a.size + f.len > s.maxSegmentBytes then s.nextSeq + 1 else s.nextSeq)
            && Active(w).seqNo == (if a.size + f.len > s.maxSegmentBytes then s.nextSeq else a.seqNo)
            && w.maxSegmentBytes == s.maxSegmentBytes
  {
    var n := |s.segments| - 1;
    var a := Active(s);
    var w := Write1(s, f);
    if a.size + f.len > s.maxSegmentBytes {
      assert w.segments[..n + 1] == s.segments[..n] + [a.(durable := |a.frames|, open := false)];
      StripAppend(s.segments[..n], a.(durable := |a.frames|, open := false));
      assert |w.segments| == n + 2 && Active(w) == Segment(s.nextSeq, [f], 0, f.len, true, 0);
    } else {
      assert w.segments[..n] == s.segments[..n];
    }
  }

  lemma Write1Key(s: State, t: State, f: Frame)
    requires Good(s) && Good(t) && SameFiles(s, t)
    ensures SameFiles(Write1(s, f), Write1(t, f))
    ensures Active(Write1(s, f)).seqNo == Active(Write1(t, f)).seqNo
  {
    FilesAgree(s, t);
    Write1Files(s, f);
    Write1Files(t, f);
  }

  // ---- A batch is its requests in turn ----------------------------------------------------

  lemma WriteOneIsWrite1(w: Written, f: Frame)
    requires Good(w.state) && |w.outs| == |w.synced|
    ensures WriteOne(w, f, ALL_OK).state == Write1(w.state, f)
    ensures WriteOne(w, f, ALL_OK).outs == w.outs + [Outcome(false, Active(Write1(w.state, f)).seqNo)]
  {
    RotateLog(w.state, ALL_OK);
  }

  /** Applying the same outcomes to two states with one index gives one index. */
  lemma {:induction false} ApplyAllIndex(s: State, t: State, batch: seq<Frame>, outs: seq<Outcome>, a: seq<bool>, b: seq<bool>)
    requires s.index == t.index && |batch| == |outs| == |a| == |b|
    ensures ApplyAll(s, batch, outs, a, true).index == ApplyAll(t, batch, outs, b, true).index
  {
    if batch == [] {
    } else {
      var n := |batch| - 1;
      ApplyAllIndex(s, t, batch[..n], outs[..n], a[..n], b[..n]);
    }
  }

  /** w, a batch written but not applied, and c, the same requests written and applied in turn. */
  ghost predicate Behind(w: Written, batch: seq<Frame>, c: State) {
    && Good(w.state) && Good(c) && |batch| == |w.outs| == |w.synced|
    && (forall i :: 0 <= i < |batch| ==> !w.outs[i].err && Present(w.state, w.outs[i].seg))
    && ApplyAll(w.state, batch, w.outs, w.synced, true).index == c.index
    && SameFiles(w.state, c)
  }

  lemma ApplyAllSnoc(t: State, batch: seq<Frame>, f: Frame, outs: seq<Outcome>, o: Outcome, synced: seq<bool>)
    requires |batch| == |outs| && |synced| == |batch| + 1 && !o.err
    ensures ApplyAll(t, batch + [f], outs + [o], synced, true).index ==
            ApplyRec(ApplyAll(t, batch, outs, synced[..|batch|], true).index, f.rec, o.seg)
  {
    TakeWithin(batch, [f], |batch|);
    TakeAll(batch);
    TakeWithin(outs, [o], |outs|);
    TakeAll(outs);
  }

  lemma Serial1Files(c: State, f: Frame)
    requires Good(c)
    ensures Good(Serial1(c, f)) && SameFiles(Serial1(c, f), Write1(c, f))
    ensures Serial1(c, f).index == ApplyRec(c.index, f.rec, Active(Write1(c, f)).seqNo)
  {
    var u := Write1(c, f);
    Write1Good(c, f);
    Serial1Good(c, f);
    ApplyOneInv(u, f.rec, Active(u).seqNo);
    SyncStrip(Serial1(c, f), u);
  }

  lemma BehindIndex(w: Written, batch: seq<Frame>, c: State, f: Frame)
    requires Behind(w, batch, c)
    ensures var v := WriteOne(w, f, ALL_OK);
            |v.outs| == |v.synced| == |batch| + 1 &&
            ApplyAll(v.state, batch + [f], v.outs, v.synced, true).index == Serial1(c, f).index
  {
    var v := WriteOne(w, f, ALL_OK);
    WriteOneInv(w.state, w, f, ALL_OK);
    WriteOneIsWrite1(w, f);
    Write1Good(w.state, f);
    Write1Key(w.state, c, f);
    Serial1Files(c, f);
    var o := Outcome(false, Active(v.state).seqNo);
    ApplyAllSnoc(v.state, batch, f, w.outs, o, v.synced);
    ApplyAllIndex(v.state, w.state, batch, w.outs, v.synced[..|batch|], w.synced);
  }

  lemma BehindPresent(w: Written, batch: seq<Frame>, c: State, f: Frame)
    requires Behind(w, batch, c)
    ensures var v := WriteOne(w, f, ALL_OK);
            && |v.outs| == |v.synced| == |batch| + 1 && v.state == Write1(w.state, f)
            && forall i :: 0 <= i <= |batch| ==> !v.outs[i].err && Present(v.state, v.outs[i].seg)
  {
    hide ApplyAll, FilesOf, Present, Inv;
    WriteOneInv(w.state, w, f, ALL_OK);
    WriteOneIsWrite1(w, f);
    hide WriteOne, Write1;
  }

  lemma BehindStep(w: Written, batch: seq<Frame>, c: State, f: Frame)
    requires Behind(w, batch, c)
    ensures Behind(WriteOne(w, f, ALL_OK), batch + [f], Serial1(c, f))
  {
    hide ApplyAll, ApplyRec, FilesOf, Serial1, WriteOne, Write1, Inv, Present;
    BehindIndex(w, batch, c, f);
    BehindPresent(w, batch, c, f);
    Write1Good(w.state, f);
    Write1Key(w.state, c, f);
    Serial1Files(c, f);
  }

  /** Writing a whole batch and then applying it is writing and applying each request in turn. */
  lemma {:induction false} BatchIsCore(s: State, batch: seq<Frame>)
    requires Good(s)
    ensures Behind(WriteAll(s, batch, Healthy(|batch|)), batch, Core(s, batch))
    ensures WriteAll(s, batch, Healthy(|batch|)).state.index == s.index
  {
    if batch == [] {
    } else {
      var n := |batch| - 1;
      BatchIsCore(s, batch[..n]);
      assert Healthy(|batch|)[..n] == Healthy(n);
      WriteAllInv(s, batch, Healthy(|batch|));
      BehindStep(WriteAll(s, batch[..n], Healthy(n)), batch[..n], Core(s, batch[..n]), batch[n]);
      SplitLast(batch);
    }
  }

  lemma SyncStrip(s: State, t: State)
    requires s.segments != [] && t.segments != [] && Strip(s.segments) == Strip(t.segments)
    ensures FilesOf(s) == FilesOf(t)
  {
    assert |Strip(s.segments)| == |Strip(t.segments)|;
    forall i | 0 <= i < |s.segments| ensures s.segments[i].(refCount := 0) == t.segments[i].(refCount := 0) {
      assert Strip(s.segments)[i] == Strip(t.segments)[i];
    }
  }

  /** Applying records to a synced state leaves it synced, with the same files. */
  lemma ApplySynced(f: State, batch: seq<Frame>, outs: seq<Outcome>, synced: seq<bool>)
    requires Good(f) && FinalSync(f, true) == f && |batch| == |outs| == |synced|
    requires forall i :: 0 <= i < |outs| && !outs[i].err ==> Present(f, outs[i].seg)
    ensures var a := ApplyAll(f, batch, outs, synced, true);
            Good(a) && FinalSync(a, true) == a && SameFiles(a, f)
  {
    ApplyAllInv(f, batch, outs, synced, true);
    var a := ApplyAll(f, batch, outs, synced, true);
    hide ApplyAll, RefsExact;
    SyncStrip(a, f);
    assert Strip(a.segments)[|a.segments| - 1] == Strip(f.segments)[|a.segments| - 1];
  }

  /** Synced and applied, a batch is its requests in turn, synced. */
  lemma AppliedIsCore(s: State, batch: seq<Frame>)
    requires Good(s)
    ensures var w := WriteAll(s, batch, Healthy(|batch|));
            && Good(w.state)
            && ApplyAll(FinalSync(w.state, true), batch, w.outs, w.synced, true) == FinalSync(Core(s, batch), true)
  {
    BatchIsCore(s, batch);
    var w := WriteAll(s, batch, Healthy(|batch|));
    var f := FinalSync(w.state, true);
    FinalSyncInv(w.state, true);
    assert FinalSync(f, true) == f && Good(f);
    PresentStays(w.state, f);
    hide Present, WriteAll, Core, FilesOf, Inv;
    ApplySynced(f, batch, w.outs, w.synced);
    ApplyAllIndex(f, w.state, batch, w.outs, w.synced, w.synced);
    hide ApplyAll;
    KeyDetermines(ApplyAll(f, batch, w.outs, w.synced, true), Core(s, batch));
  }

  lemma GroupIsCore(s: State, batch: seq<Frame>)
    requires Good(s)
    ensures Group(s, batch) == Gc(FinalSync(Core(s, batch), true))
    ensures forall i :: 0 <= i < |batch| ==> Commit(s, batch, Healthy(|batch|), true).replies[i]
    ensures Good(FinalSync(Core(s, batch), true))
  {
    FinalSyncInv(Core(s, batch), true);
    AppliedIsCore(s, batch);
    BatchIsCore(s, batch);
    hide ApplyAll, WriteAll, Gc, Shape, RefsExact, Core;
  }

  // ---- Syncing and collecting early change nothing ----------------------------------------

  lemma {:induction false} CoreKey(s: State, t: State, batch: seq<Frame>)
    requires Good(s) && Good(t) && SameKey(s, t)
    ensures SameKey(Core(s, batch), Core(t, batch))
  {
    if batch == [] {
    } else {
      var n := |batch| - 1;
      CoreKey(s, t, batch[..n]);
      Serial1Key(Core(s, batch[..n]), Core(t, batch[..n]), batch[n]);
    }
  }

  lemma Serial1Key(a: State, b: State, f: Frame)
    requires Good(a) && Good(b) && SameKey(a, b)
    ensures SameKey(Serial1(a, f), Serial1(b, f))
  {
    Write1Key(a, b, f);
    Serial1Files(a, f);
    Serial1Files(b, f);
  }

  /** The first k segments are referenced by nothing. */
  ghost predicate Droppable(s: State, k: nat) {
    Good(s) && k < |s.segments| && Good(DropFront(s, k))
  }

  lemma Write1Drop(s: State, k: nat, f: Frame)
    requires Droppable(s, k)
    ensures k < |Write1(s, f).segments| && DropFront(Write1(s, f), k) == Write1(DropFront(s, k), f)
  {
  }

  /** Equal files under equal indexes have equal counts. */
  lemma SameSegments(a: State, b: State, files: seq<Segment>, k: nat)
    requires Inv(a) && Inv(b) && a.index == b.index && k <= |files|
    requires Strip(a.segments) == Strip(files) && Strip(b.segments) == Strip(files[k..])
    ensures |a.segments| == |files| && a.segments[k..] == b.segments
    ensures files != [] ==> Active(a).open == files[|files| - 1].open
  {
    assert |Strip(a.segments)| == |Strip(files)| && |Strip(b.segments)| == |Strip(files[k..])|;
    forall i | 0 <= i < |a.segments| ensures a.segments[i].(refCount := 0) == files[i].(refCount := 0) {
      assert Strip(a.segments)[i] == Strip(files)[i];
    }
    forall i | 0 <= i < |b.segments| ensures a.segments[k + i] == b.segments[i] {
      assert Strip(b.segments)[i] == Strip(files[k..])[i];
    }
  }

  lemma PresentBehind(s: State, k: nat, q: nat)
    requires k <= |s.segments| && Present(DropFront(s, k), q)
    ensures Present(s, q)
  {
    var i :| 0 <= i < |s.segments| - k && s.segments[k..][i].seqNo == q;
    assert s.segments[k + i].seqNo == q;
  }

  /** Applying a record leaves unreferenced front segments alone. */
  lemma ApplyDrop(u: State, k: nat, r: Rec, seg: nat)
    requires Droppable(u, k) && Present(DropFront(u, k), seg)
    ensures Droppable(ApplyOne(u, r, seg), k)
    ensures DropFront(ApplyOne(u, r, seg), k) == ApplyOne(DropFront(u, k), r, seg)
  {
    PresentBehind(u, k, seg);
    ApplyGood(u, r, seg);
    ApplyGood(DropFront(u, k), r, seg);
    hide Inv, Present, ApplyOne, Good, ApplyRec;
    var a, b := ApplyOne(u, r, seg), ApplyOne(DropFront(u, k), r, seg);
    InvOf(a);
    InvOf(b);
    SameSegments(a, b, u.segments, k);
    assert DropFront(a, k) == b;
  }

  lemma InvOf(s: State)
    requires Good(s)
    ensures Inv(s) && s.segments != []
  {
  }

  lemma ApplyGood(u: State, r: Rec, seg: nat)
    requires Good(u) && Present(u, seg)
    ensures var t := ApplyOne(u, r, seg);
            && Good(t) && Strip(t.segments) == Strip(u.segments) && t.index == ApplyRec(u.index, r, seg)
            && t.nextSeq == u.nextSeq && t.maxSegmentBytes == u.maxSegmentBytes && |t.segments| == |u.segments|
  {
    ApplyOneInv(u, r, seg);
    var t := ApplyOne(u, r, seg);
    hide Inv;
    StripNumbers(t.segments, u.segments);
    assert Strip(t.segments)[|u.segments| - 1] == Strip(u.segments)[|u.segments| - 1];
  }

  lemma Serial1Drop(s: State, k: nat, f: Frame)
    requires Droppable(s, k)
    ensures Droppable(Serial1(s, f), k) && DropFront(Serial1(s, f), k) == Serial1(DropFront(s, k), f)
  {
    Write1Good(s, f);
    Write1Good(DropFront(s, k), f);
    Write1Drop(s, k, f);
    ApplyDrop(Write1(s, f), k, f.rec, Active(Write1(s, f)).seqNo);
  }

  lemma {:induction false} CoreDrop(s: State, k: nat, batch: seq<Frame>)
    requires Droppable(s, k)
    ensures Droppable(Core(s, batch), k) && DropFront(Core(s, batch), k) == Core(DropFront(s, k), batch)
  {
    if batch == [] {
    } else {
      var n := |batch| - 1;
      CoreDrop(s, k, batch[..n]);
      Serial1Drop(Core(s, batch[..n]), k, batch[n]);
    }
  }

  /** The first of some unreferenced segments has count zero. */
  lemma DroppableFirst(s: State, k: nat)
    requires Droppable(s, k) && k > 0
    ensures s.segments[0].refCount == 0 && Droppable(DropFront(s, 1), k - 1)
  {
    forall id | id in s.index ensures s.index[id].segSeq != s.segments[0].seqNo {
      assert Present(DropFront(s, k), s.index[id].segSeq);
      var i :| 0 <= i < |s.segments| - k && s.segments[k..][i].seqNo == s.index[id].segSeq;
      assert s.segments[0].seqNo < s.segments[k + i].seqNo;
    }
    assert Referrers(s.index, s.segments[0].seqNo) == {};
    assert s.segments[0].refCount == Count(s.index, s.segments[0].seqNo);
    DropFirstInv(s);
    assert DropFront(DropFront(s, 1), k - 1) == DropFront(s, k);
  }

  lemma {:induction false} DroppableIsDropped(s: State, k: nat)
    requires Droppable(s, k)
    ensures k <= Dropped(s)
    decreases k
  {
    if k == 0 {
    } else {
      DroppableFirst(s, k);
      hide Droppable;
      DroppableIsDropped(DropFront(s, 1), k - 1);
    }
  }

  lemma GcDrop(s: State, k: nat)
    requires Droppable(s, k)
    ensures Gc(DropFront(s, k)) == Gc(s)
  {
    DroppableIsDropped(s, k);
    GcAfterDrop(s, k);
  }

  /** Any initial part of what Gc would delete may be deleted first. */
  lemma DropSome(s: State, k: nat)
    requires Good(s) && k <= Dropped(s)
    ensures Droppable(s, k)
  {
    hide Inv, Dropped;
    DropSomeInv(s, k);
  }

  // ---- The theorem ------------------------------------------------------------------------

  lemma {:induction false} CoreConcat(s: State, a: seq<Frame>, b: seq<Frame>)
    requires Good(s)
    ensures Core(s, a + b) == Core(Core(s, a), b)
  {
    if b == [] {
      assert a + b == a;
    } else {
      var n := |b| - 1;
      assert (a + b)[..|a + b| - 1] == a + b[..n];
      CoreConcat(s, a, b[..n]);
    }
  }

  /** Collecting between two batches makes no difference to the state after the second. */
  lemma EarlyGc(f: State, b: seq<Frame>)
    requires Good(f)
    ensures Good(Gc(f)) && Gc(FinalSync(Core(Gc(f), b), true)) == Gc(FinalSync(Core(f, b), true))
  {
    var k := Dropped(f);
    GcInv(f);
    hide Inv, Core, Dropped, Gc;
    DropSome(f, k);
    CoreDrop(f, k, b);
    var x := Core(f, b);
    assert FinalSync(DropFront(x, k), true) == DropFront(FinalSync(x, true), k);
    FinalSyncInv(x, true);
    FinalSyncInv(DropFront(x, k), true);
    GcDrop(FinalSync(x, true), k);
  }

  /** Nor does syncing between them. */
  lemma EarlySync(c: State, b: seq<Frame>)
    requires Good(c)
    ensures Good(FinalSync(c, true)) && FinalSync(Core(FinalSync(c, true), b), true) == FinalSync(Core(c, b), true)
  {
    var f := FinalSync(c, true);
    FinalSyncInv(c, true);
    assert FinalSync(f, true) == f;
    CoreKey(f, c, b);
    KeyDetermines(Core(f, b), Core(c, b));
  }

  /** Two consecutive batches leave the log as their concatenation would. */
  lemma TwoGroupsAreOne(s: State, a: seq<Frame>, b: seq<Frame>)
    requires Good(s)
    ensures Good(Group(s, a)) && Group(Group(s, a), b) == Group(s, a + b)
  {
    GroupGood(s, a);
    GroupIsCore(s, a);
    GroupIsCore(Group(s, a), b);
    GroupIsCore(s, a + b);
    CoreConcat(s, a, b);
    EarlyGc(FinalSync(Core(s, a), true), b);
    EarlySync(Core(s, a), b);
  }

  /** However a request stream is cut into batches, the final state is that of one big batch. */
  lemma {:induction false} GroupsAreOne(s: State, batches: seq<seq<Frame>>)
    requires Good(s) && batches != []
    ensures Groups(s, batches) == Group(s, Flatten(batches))
  {
    var n := |batches| - 1;
    if n == 0 {
      assert Flatten(batches) == batches[0];
      assert Groups(s, batches[..0]) == s;
    } else {
      GroupsAreOne(s, batches[..n]);
      TwoGroupsAreOne(s, Flatten(batches[..n]), batches[n]);
    }
  }

  function Singletons(stream: seq<Frame>): seq<seq<Frame>> {
    seq(|stream|, i requires 0 <= i < |stream| => [stream[i]])
  }

  lemma {:induction false} FlattenSingletons(stream: seq<Frame>)
    ensures Flatten(Singletons(stream)) == stream
  {
    if stream == [] {
    } else {
      var n := |stream| - 1;
      FlattenSingletons(stream[..n]);
      assert Singletons(stream)[..n] == Singletons(stream[..n]);
    }
  }

  /** Group commit refines serial commit: any grouping of a non-empty stream gives the state of
      committing its requests one at a time, each followed by garbage collection, and in both
      every reply is nil. */
  lemma GroupCommitRefinesSerial(s: State, batches: seq<seq<Frame>>)
    requires Good(s) && Flatten(batches) != []
    ensures Groups(s, batches) == Groups(s, Singletons(Flatten(batches)))
    ensures forall i :: 0 <= i < |batches| ==>
              var at := Groups(s, batches[..i]);
              forall j :: 0 <= j < |batches[i]| ==> Commit(at, batches[i], Healthy(|batches[i]|), true).replies[j]
  {
    FlattenSingletons(Flatten(batches));
    GroupsAreOne(s, batches);
    GroupsAreOne(s, Singletons(Flatten(batches)));
    forall i | 0 <= i < |batches|
      ensures var at := Groups(s, batches[..i]);
              forall j :: 0 <= j < |batches[i]| ==> Commit(at, batches[i], Healthy(|batches[i]|), true).replies[j]
    {
      GroupIsCore(Groups(s, batches[..i]), batches[i]);
    }
  }

  // ---- Single requests --------------------------------------------------------------------

  lemma OneCommit(s: State, f: Frame)
    requires Good(s)
    ensures Good(Group(s, [f])) && Commit(s, [f], Healthy(1), true).replies[0]
    ensures Group(s, [f]).index == ApplyRec(s.index, f.rec, Active(Write1(s, f)).seqNo)
  {
    GroupGood(s, [f]);
    GroupIsCore(s, [f]);
    Serial1Good(s, f);
    Serial1Files(s, f);
    assert Core(s, [f][..0]) == s;
    GcInv(FinalSync(Core(s, [f]), true));
  }

  /** An append by itself leaves the entry pending for the providers it names, and for no other. */
  lemma AppendOne(s: State, e: Event, provider: string, len: nat)
    requires Good(s)
    ensures var t := Group(s, [Frame(EventRec(e, [provider]), len)]);
            && Good(t) && e.id in t.index && t.index[e.id].pending == {provider}
            && forall id :: id != e.id ==> (id in t.index <==> id in s.index) && (id in s.index ==> t.index[id] == s.index[id])
  {
    hide Group, Commit, Good;
    OneCommit(s, Frame(EventRec(e, [provider]), len));
    assert Members([provider]) == {provider};
  }

  /** The acknowledgement of the last pending provider by itself resolves the entry. */
  lemma AckOne(s: State, id: string, provider: string, d: Disposition, len: nat)
    requires Good(s) && id in s.index && s.index[id].pending == {provider}
    ensures Good(Group(s, [Frame(AckRec(id, provider, d), len)]))
    ensures id !in Group(s, [Frame(AckRec(id, provider, d), len)]).index
  {
    hide Group, Commit, Good;
    OneCommit(s, Frame(AckRec(id, provider, d), len));
  }
}
