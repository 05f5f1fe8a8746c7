/** What every operation of the write-ahead log keeps, in every reachable state, faults included:
    contiguous segments, exact reference counts, and an index whose event records are on disk. */
module WalInvariant {
  import opened Types
  import opened WalLog
  import opened WalState

  /** Segment numbers go up. */
  ghost predicate Ascending(segs: seq<Segment>) {
    forall i, j :: 0 <= i < j < |segs| ==> segs[i].seqNo < segs[j].seqNo
  }

  /** Segment numbers go up, the next number is free, and every segment that is no longer active is
      wholly durable. */
  ghost predicate Shape(s: State) {
    && s.segments != []
    && Ascending(s.segments)
    && s.nextSeq == Active(s).seqNo + 1
    && AlmostDurable(s.segments)
  }

  /** Only the last segment may have frames that a crash can take. */
  ghost predicate AlmostDurable(segs: seq<Segment>) {
    && (forall i :: 0 <= i < |segs| ==> segs[i].durable <= |segs[i].frames|)
    && (forall i :: 0 <= i < |segs| - 1 ==> segs[i].durable == |segs[i].frames|)
  }

  /** The segment numbered q is present. */
  ghost predicate Present(s: State, q: nat) {
    exists i :: 0 <= i < |s.segments| && s.segments[i].seqNo == q
  }

  ghost predicate RefsExact(s: State) {
    forall i :: 0 <= i < |s.segments| ==> s.segments[i].refCount == Count(s.index, s.segments[i].seqNo)
  }

  ghost predicate Inv(s: State) {
    && Shape(s)
    && RefsExact(s)
    && forall id :: id in s.index ==> Present(s, s.index[id].segSeq)
  }

  /** The front segment is referenced unless it is the only one. */
  predicate Settled(s: State) {
    |s.segments| == 1 || (|s.segments| > 1 && s.segments[0].refCount != 0)
  }

  /** The numbers of a are the first numbers of b. */
  ghost predicate NumbersFirst(a: seq<Segment>, b: seq<Segment>) {
    |a| <= |b| && forall i :: 0 <= i < |a| ==> a[i].seqNo == b[i].seqNo
  }

  lemma PresentStays(s: State, t: State)
    requires NumbersFirst(s.segments, t.segments)
    ensures forall q :: Present(s, q) ==> Present(t, q)
  {
    forall q | Present(s, q) ensures Present(t, q) {
      var i :| 0 <= i < |s.segments| && s.segments[i].seqNo == q;
      assert t.segments[i].seqNo == q;
    }
  }

  // ---- Reference counts -------------------------------------------------------------------

  lemma {:induction false} BumpAt(segs: seq<Segment>, q: nat, d: int, i: nat)
    requires i < |segs| && segs[i].seqNo == q
    requires forall j :: 0 <= j < i ==> segs[j].seqNo != q
    ensures Bump(segs, q, d) == segs[i := segs[i].(refCount := segs[i].refCount + d)]
  {
    if i == 0 {
    } else {
      BumpAt(segs[1..], q, d, i - 1);
    }
  }

  /** Giving an id a new entry moves one reference from its old segment to the new one. */
  lemma CountPut(ix: Index, id: string, e: Entry, q: nat)
    ensures Count(ix[id := e], q) == Count(ix, q)
                                   - (if id in ix && ix[id].segSeq == q then 1 else 0)
                                   + (if e.segSeq == q then 1 else 0)
  {
    var rest := Referrers(ix, q) - {id};
    assert Referrers(ix, q) == if id in ix && ix[id].segSeq == q then rest + {id} else rest;
    assert Referrers(ix[id := e], q) == if e.segSeq == q then rest + {id} else rest;
  }

  lemma CountDrop(ix: Index, id: string, q: nat)
    ensures Count(ix - {id}, q) == Count(ix, q) - (if id in ix && ix[id].segSeq == q then 1 else 0)
  {
    assert Referrers(ix - {id}, q) == Referrers(ix, q) - {id};
  }

  /** The count of segment q differs by d; every other field of every segment is the same. */
  ghost predicate Bumped(a: seq<Segment>, b: seq<Segment>, q: nat, d: int) {
    && |b| == |a|
    && forall k :: 0 <= k < |b| ==> b[k] == a[k].(refCount := a[k].refCount + (if a[k].seqNo == q then d else 0))
  }

  lemma ShapeBumped(s: State, b: seq<Segment>, q: nat, d: int)
    requires Shape(s) && Bumped(s.segments, b, q, d)
    ensures Shape(s.(segments := b))
  {
    assert forall k :: 0 <= k < |b| ==>
      b[k].seqNo == s.segments[k].seqNo && b[k].durable == s.segments[k].durable && b[k].frames == s.segments[k].frames;
    hide Bumped;
  }

  lemma PresentBumped(s: State, b: seq<Segment>, q: nat, d: int)
    requires Bumped(s.segments, b, q, d)
    ensures NumbersFirst(s.segments, b) && Strip(b) == Strip(s.segments)
  {
  }

  lemma BumpOnce(segs: seq<Segment>, q: nat, d: int, i: nat)
    requires Ascending(segs) && i < |segs| && segs[i].seqNo == q
    ensures Bumped(segs, Bump(segs, q, d), q, d)
  {
    forall k | 0 <= k < |segs| ensures segs[k].seqNo == q <==> k == i {
      assert k < i ==> segs[k].seqNo < segs[i].seqNo;
      assert k > i ==> segs[i].seqNo < segs[k].seqNo;
    }
    hide Ascending;
    BumpAt(segs, q, d, i);
  }

  /** A present segment's count changes by d, and that is all. */
  lemma BumpEffect(s: State, q: nat, d: int)
    requires Shape(s) && Present(s, q)
    ensures Bumped(s.segments, Bump(s.segments, q, d), q, d)
    ensures Shape(s.(segments := Bump(s.segments, q, d)))
  {
    var i :| 0 <= i < |s.segments| && s.segments[i].seqNo == q;
    BumpOnce(s.segments, q, d, i);
    ShapeBumped(s, Bump(s.segments, q, d), q, d);
  }

  /** Files without their reference counts; applying a record changes nothing else of a segment. */
  function Strip(segs: seq<Segment>): seq<Segment> {
    seq(|segs|, i requires 0 <= i < |segs| => segs[i].(refCount := 0))
  }

  /** The segments after the old entry of an id, if there is one, has released its own. */
  function Released(s: State, id: string): seq<Segment> {
    if id in s.index then Bump(s.segments, s.index[id].segSeq, -1) else s.segments
  }

  lemma ReleaseShape(s: State, id: string)
    requires Inv(s)
    ensures Shape(s.(segments := Released(s, id)))
    ensures Bumped(s.segments, Released(s, id), if id in s.index then s.index[id].segSeq else 0, if id in s.index then -1 else 0)
    ensures NumbersFirst(s.segments, Released(s, id))
  {
    if id in s.index {
      BumpEffect(s, s.index[id].segSeq, -1);
      PresentBumped(s, Released(s, id), s.index[id].segSeq, -1);
    }
  }

  lemma TwoBumps(a: seq<Segment>, b: seq<Segment>, c: seq<Segment>, q: nat, d: int, q': nat, d': int)
    requires Bumped(a, b, q, d) && Bumped(b, c, q', d')
    ensures |c| == |a|
    ensures forall k :: 0 <= k < |c| ==>
              c[k] == a[k].(refCount := a[k].refCount + (if a[k].seqNo == q then d else 0) + (if a[k].seqNo == q' then d' else 0))
  {
  }

  lemma ApplyEventShape(s: State, e: Event, ps: seq<string>, seg: nat)
    requires Inv(s) && Present(s, seg)
    ensures var t := ApplyOne(s, EventRec(e, ps), seg);
            && |t.segments| == |s.segments| && Shape(t)
            && forall k :: 0 <= k < |t.segments| ==>
                 t.segments[k] == s.segments[k].(refCount := s.segments[k].refCount
                   - (if e.id in s.index && s.index[e.id].segSeq == s.segments[k].seqNo then 1 else 0)
                   + (if s.segments[k].seqNo == seg then 1 else 0))
  {
    var t := ApplyOne(s, EventRec(e, ps), seg);
    var mid := s.(segments := Released(s, e.id));
    assert t.segments == Bump(mid.segments, seg, 1) && t.nextSeq == s.nextSeq;
    ReleaseShape(s, e.id);
    hide Released, ApplyOne, Bump, RefsExact, Shape, Bumped, Present, NumbersFirst, Strip;
    PresentStays(s, mid);
    BumpEffect(mid, seg, 1);
    ShapeIgnoresIndex(mid.(segments := t.segments), t.index);
    TwoBumps(s.segments, mid.segments, t.segments,
             if e.id in s.index then s.index[e.id].segSeq else 0, if e.id in s.index then -1 else 0, seg, 1);
  }

  lemma ShapeIgnoresIndex(s: State, ix: Index)
    requires Shape(s)
    ensures Shape(s.(index := ix))
  {
  }

  lemma ApplyEventInv(s: State, e: Event, ps: seq<string>, seg: nat)
    requires Inv(s) && Present(s, seg)
    ensures Inv(ApplyOne(s, EventRec(e, ps), seg))
    ensures Strip(ApplyOne(s, EventRec(e, ps), seg).segments) == Strip(s.segments)
  {
    var t := ApplyOne(s, EventRec(e, ps), seg);
    ApplyEventShape(s, e, ps, seg);
    forall k | 0 <= k < |t.segments| ensures t.segments[k].refCount == Count(t.index, t.segments[k].seqNo) {
      CountPut(s.index, e.id, Entry(e, Members(ps), seg), t.segments[k].seqNo);
    }
  }

  /** The last pending provider answered: the entry goes, and with it its segment's reference. */
  lemma ResolveInv(s: State, id: string)
    requires Inv(s) && id in s.index
    ensures var t := s.(index := s.index - {id}, segments := Bump(s.segments, s.index[id].segSeq, -1));
            Inv(t) && Strip(t.segments) == Strip(s.segments)
  {
    var t := s.(index := s.index - {id}, segments := Bump(s.segments, s.index[id].segSeq, -1));
    BumpEffect(s, s.index[id].segSeq, -1);
    PresentBumped(s, t.segments, s.index[id].segSeq, -1);
    PresentStays(s, t);
    ShapeIgnoresIndex(s.(segments := t.segments), t.index);
    hide Shape, Bump, Count, Present, NumbersFirst, Strip;
    forall k | 0 <= k < |t.segments| ensures t.segments[k].refCount == Count(t.index, t.segments[k].seqNo) {
      CountDrop(s.index, id, t.segments[k].seqNo);
    }
  }

  /** One of several pending providers answered: the entry stays where it is. */
  lemma AnswerInv(s: State, id: string, left: set<string>)
    requires Inv(s) && id in s.index
    ensures Inv(s.(index := s.index[id := s.index[id].(pending := left)]))
  {
    var t := s.(index := s.index[id := s.index[id].(pending := left)]);
    ShapeIgnoresIndex(s, t.index);
    hide Shape, Count;
    forall k | 0 <= k < |t.segments| ensures t.segments[k].refCount == Count(t.index, t.segments[k].seqNo) {
      CountPut(s.index, id, s.index[id].(pending := left), t.segments[k].seqNo);
    }
  }

  lemma ApplyAckInv(s: State, id: string, p: string, d: Disposition, seg: nat)
    requires Inv(s)
    ensures Inv(ApplyOne(s, AckRec(id, p, d), seg))
    ensures Strip(ApplyOne(s, AckRec(id, p, d), seg).segments) == Strip(s.segments)
  {
    hide Inv, Strip, Bump;
    if id in s.index {
      ResolveInv(s, id);
      AnswerInv(s, id, s.index[id].pending - {p});
    }
  }

  lemma ApplyOneInv(s: State, r: Rec, seg: nat)
    requires Inv(s) && Present(s, seg)
    ensures Inv(ApplyOne(s, r, seg))
    ensures ApplyOne(s, r, seg).index == ApplyRec(s.index, r, seg)
    ensures Strip(ApplyOne(s, r, seg).segments) == Strip(s.segments)
  {
    match r
    case EventRec(e, ps) => ApplyEventInv(s, e, ps, seg);
    case AckRec(id, p, d) => ApplyAckInv(s, id, p, d, seg);
  }

  // ---- Writing ----------------------------------------------------------------------------

  /** Writing never touches the index, and every successful write lands in a present segment. */
  ghost predicate Wrote(s: State, w: Written) {
    && Inv(w.state) && w.state.index == s.index && |w.outs| == |w.synced|
    && w.state.maxSegmentBytes == s.maxSegmentBytes
    && forall i :: 0 <= i < |w.outs| && !w.outs[i].err ==> Present(w.state, w.outs[i].seg)
  }

  /** Nothing was written yet in a segment that does not exist. */
  lemma NextIsFree(s: State)
    requires Inv(s)
    ensures Count(s.index, s.nextSeq) == 0
  {
    forall id | id in s.index ensures s.index[id].segSeq < s.nextSeq {
      var i :| 0 <= i < |s.segments| && s.segments[i].seqNo == s.index[id].segSeq;
      assert i < |s.segments| - 1 ==> s.segments[i].seqNo < s.segments[|s.segments| - 1].seqNo;
    }
    assert Referrers(s.index, s.nextSeq) == {};
  }

  lemma RotateInv(s: State, io: Io)
    requires Inv(s)
    ensures Inv(Rotate(s, io).state)
    ensures Rotate(s, io).state.index == s.index && Rotate(s, io).state.maxSegmentBytes == s.maxSegmentBytes
    ensures NumbersFirst(s.segments, Rotate(s, io).state.segments)
  {
    var t := Rotate(s, io).state;
    NextIsFree(s);
    PresentStays(s, t);
    hide Present, Count;
  }

  lemma WriteFrameInv(s: State, w: Written, f: Frame, writeOk: bool)
    requires Wrote(s, w)
    ensures Wrote(s, WriteFrame(w, f, writeOk))
  {
    var v := WriteFrame(w, f, writeOk);
    PresentStays(w.state, v.state);
    var n := |w.state.segments| - 1;
    assert v.state.segments[n].seqNo == Active(w.state).seqNo;
    assert Present(v.state, Active(w.state).seqNo);
    hide Present, Count;
  }

  lemma WriteOneInv(s: State, w: Written, f: Frame, io: Io)
    requires Wrote(s, w)
    ensures Wrote(s, WriteOne(w, f, io))
  {
    if Active(w.state).size + f.len > w.state.maxSegmentBytes {
      RotateInv(w.state, io);
      var r := Rotate(w.state, io);
      PresentStays(w.state, r.state);
      hide Present, Inv, Rotate;
      if r.ok {
        WriteFrameInv(s, Written(r.state, w.outs, MarkSynced(w.outs, w.synced)), f, io.writeOk);
      }
    } else {
      WriteFrameInv(s, w, f, io.writeOk);
    }
  }

  lemma {:induction false} WriteAllInv(s: State, batch: seq<Frame>, ios: seq<Io>)
    requires Inv(s) && |batch| == |ios|
    ensures Wrote(s, WriteAll(s, batch, ios))
  {
    if batch == [] {
    } else {
      var n := |batch| - 1;
      WriteAllInv(s, batch[..n], ios[..n]);
      WriteOneInv(s, WriteAll(s, batch[..n], ios[..n]), batch[n], ios[n]);
    }
  }

  lemma StripNumbers(a: seq<Segment>, b: seq<Segment>)
    requires Strip(a) == Strip(b)
    ensures |a| == |b| && NumbersFirst(a, b)
  {
    assert |Strip(a)| == |a| && |Strip(b)| == |b|;
    forall i | 0 <= i < |a| ensures a[i].seqNo == b[i].seqNo {
      assert Strip(a)[i] == Strip(b)[i];
    }
  }

  lemma {:induction false} ApplyAllInv(s: State, batch: seq<Frame>, outs: seq<Outcome>, synced: seq<bool>, finalOk: bool)
    requires Inv(s) && |batch| == |outs| == |synced|
    requires forall i :: 0 <= i < |outs| && !outs[i].err ==> Present(s, outs[i].seg)
    ensures Inv(ApplyAll(s, batch, outs, synced, finalOk))
    ensures Strip(ApplyAll(s, batch, outs, synced, finalOk).segments) == Strip(s.segments)
    ensures ApplyAll(s, batch, outs, synced, finalOk).nextSeq == s.nextSeq
    ensures ApplyAll(s, batch, outs, synced, finalOk).maxSegmentBytes == s.maxSegmentBytes
  {
    if batch == [] {
    } else {
      var n := |batch| - 1;
      ApplyAllInv(s, batch[..n], outs[..n], synced[..n], finalOk);
      var t := ApplyAll(s, batch[..n], outs[..n], synced[..n], finalOk);
      StripNumbers(s.segments, t.segments);
      PresentStays(s, t);
      hide Inv, Strip, Present;
      if Acked(outs[n], synced[n], finalOk) {
        ApplyOneInv(t, batch[n].rec, outs[n].seg);
      }
    }
  }

  // ---- Garbage collection -----------------------------------------------------------------

  /** Gc deletes that many segments from the front, all unreferenced, and stops at one that is not or
      at the active one. */
  lemma {:induction false} GcDrops(s: State)
    requires s.segments != []
    ensures Dropped(s) < |s.segments|
    ensures Gc(s) == DropFront(s, Dropped(s))
    ensures forall i :: 0 <= i < Dropped(s) ==> s.segments[i].refCount == 0
    ensures Settled(Gc(s))
    decreases |s.segments|
  {
    if |s.segments| > 1 && s.segments[0].refCount == 0 {
      var t := DropFront(s, 1);
      GcDrops(t);
      assert DropFront(t, Dropped(t)) == DropFront(s, 1 + Dropped(t));
      forall i | 0 <= i < Dropped(s) ensures s.segments[i].refCount == 0 {
        assert i > 0 ==> t.segments[i - 1] == s.segments[i];
      }
    }
  }

  lemma DropFirstInv(s: State)
    requires Inv(s) && |s.segments| > 1 && s.segments[0].refCount == 0
    ensures Inv(DropFront(s, 1))
  {
    var t := DropFront(s, 1);
    assert Referrers(s.index, s.segments[0].seqNo) == {};
    forall id | id in s.index ensures Present(t, s.index[id].segSeq) {
      assert id !in Referrers(s.index, s.segments[0].seqNo);
      var i :| 0 <= i < |s.segments| && s.segments[i].seqNo == s.index[id].segSeq;
      assert t.segments[i - 1].seqNo == s.index[id].segSeq;
    }
  }

  /** Collection stopped half way keeps the invariant too. */
  lemma {:induction false} DropSomeInv(s: State, k: nat)
    requires Inv(s) && k <= Dropped(s)
    ensures k < |s.segments| && Inv(DropFront(s, k))
    decreases k
  {
    if k == 0 {
      assert DropFront(s, 0) == s;
    } else {
      DropFirstInv(s);
      DropSomeInv(DropFront(s, 1), k - 1);
      assert DropFront(DropFront(s, 1), k - 1) == DropFront(s, k);
    }
  }

  lemma GcInv(s: State)
    requires Inv(s)
    ensures Dropped(s) < |s.segments|
    ensures Gc(s) == DropFront(s, Dropped(s))
    ensures Inv(Gc(s)) && Settled(Gc(s))
    ensures forall i :: 0 <= i < Dropped(s) ==> s.segments[i].refCount == 0
  {
    GcDrops(s);
    DropSomeInv(s, Dropped(s));
  }

  // ---- Whole operations -------------------------------------------------------------------

  lemma FinalSyncInv(s: State, ok: bool)
    requires Inv(s)
    ensures Inv(FinalSync(s, ok))
  {
    PresentStays(s, FinalSync(s, ok));
    hide Present, Count;
  }

  /** Writing, syncing and applying a batch keeps the invariant whatever fails. */
  lemma AppliedInv(s: State, batch: seq<Frame>, ios: seq<Io>, syncOk: bool)
    requires Inv(s) && |batch| == |ios|
    ensures Inv(Applied(s, batch, ios, syncOk)) && Inv(Flushed(s, batch, ios, syncOk))
    ensures Applied(s, batch, ios, syncOk).maxSegmentBytes == s.maxSegmentBytes
    ensures Flushed(s, batch, ios, syncOk).index == s.index
    ensures var w := WriteAll(s, batch, ios);
            forall i :: 0 <= i < |batch| && !w.outs[i].err ==> Present(Flushed(s, batch, ios, syncOk), w.outs[i].seg)
    ensures Strip(Applied(s, batch, ios, syncOk).segments) == Strip(Flushed(s, batch, ios, syncOk).segments)
  {
    var w := WriteAll(s, batch, ios);
    var f := Flushed(s, batch, ios, syncOk);
    WriteAllInv(s, batch, ios);
    FinalSyncInv(w.state, syncOk);
    assert NumbersFirst(w.state.segments, f.segments);
    PresentStays(w.state, f);
    hide Inv, Present, Strip, FinalSync, WriteAll;
    ApplyAllInv(f, batch, w.outs, w.synced, FinalOk(s, batch, ios, syncOk));
  }

  /** However a process stops, also inside a commit, what it leaves keeps the invariant. */
  lemma StoppedInv(s: State, cut: Cut)
    requires Inv(s) && CanStop(s, cut)
    ensures Inv(Stopped(s, cut)) && Stopped(s, cut).maxSegmentBytes == s.maxSegmentBytes
  {
    AppliedInv(s, cut.batch, cut.ios, cut.syncOk);
    DropSomeInv(Applied(s, cut.batch, cut.ios, cut.syncOk), cut.dropped);
  }

  /** A commit keeps the invariant whatever fails inside it, and leaves the front referenced. */
  lemma CommitInv(s: State, batch: seq<Frame>, ios: seq<Io>, syncOk: bool)
    requires Inv(s) && |batch| == |ios|
    ensures Inv(Commit(s, batch, ios, syncOk).state) && Settled(Commit(s, batch, ios, syncOk).state)
    ensures Commit(s, batch, ios, syncOk).state.maxSegmentBytes == s.maxSegmentBytes
  {
    AppliedInv(s, batch, ios, syncOk);
    GcInv(Applied(s, batch, ios, syncOk));
  }

  lemma {:induction false} LogSegs(segs: seq<Segment>, l: Located)
    requires l in Log(segs)
    ensures exists i :: 0 <= i < |segs| && segs[i].seqNo == l.seg
  {
    var n := |segs| - 1;
    if l in Log(segs[..n]) {
      LogSegs(segs[..n], l);
    }
  }

  /** What startup can find: files whose numbers go up, with or without gaps, all but the last of them
      wholly on stable storage. */
  ghost predicate Findable(segs: seq<Segment>) {
    Ascending(segs) && AlmostDurable(segs)
  }

  /** Replayed entries point at segments that are there, so a recovered state has exact counts. */
  lemma RecoveredInv(segs: seq<Segment>, maxSegmentBytes: int)
    requires segs != [] && Findable(segs)
    ensures Inv(Recovered(segs, maxSegmentBytes))
  {
    var s := Recovered(segs, maxSegmentBytes);
    assert NumbersFirst(segs, s.segments);
    forall id | id in s.index ensures Present(s, s.index[id].segSeq) {
      RecoveredPresent(segs, maxSegmentBytes, id);
    }
    hide Present, Count, Replay, Log;
  }

  lemma RecoveredPresent(segs: seq<Segment>, maxSegmentBytes: int, id: string)
    requires id in Recovered(segs, maxSegmentBytes).index
    ensures var s := Recovered(segs, maxSegmentBytes); Present(s, s.index[id].segSeq)
  {
    var s := Recovered(segs, maxSegmentBytes);
    var k := ReplayEntry(Log(segs), id);
    LogSegs(segs, Log(segs)[k]);
    hide Replay, Log, Count;
    var i :| 0 <= i < |segs| && segs[i].seqNo == s.index[id].segSeq;
    assert s.segments[i].seqNo == s.index[id].segSeq;
  }

  lemma FreshInv(maxSegmentBytes: int)
    ensures Open([], maxSegmentBytes) == State(map[], [EmptySegment(0)], 1, maxSegmentBytes)
    ensures Inv(Open([], maxSegmentBytes))
  {
    assert Gc(Recovered([], maxSegmentBytes)) == Recovered([], maxSegmentBytes);
    assert Referrers(map[], 0) == {};
  }

  lemma ActivateInv(s: State)
    requires Inv(s)
    ensures Inv(Activate(s)) && (Settled(s) ==> Settled(Activate(s)))
  {
    PresentStays(s, Activate(s));
    hide Present, Count;
  }

  /** Opening keeps the invariant: on a fresh directory, after a crash that cut the active segment
      anywhere past its durable length, or on any files with ascending numbers. */
  lemma OpenInv(segs: seq<Segment>, maxSegmentBytes: int)
    requires Findable(segs)
    ensures Inv(Open(segs, maxSegmentBytes)) && Settled(Open(segs, maxSegmentBytes))
  {
    if segs == [] {
      FreshInv(maxSegmentBytes);
    } else {
      RecoveredInv(segs, maxSegmentBytes);
      GcInv(Recovered(segs, maxSegmentBytes));
      ActivateInv(Gc(Recovered(segs, maxSegmentBytes)));
    }
  }

  lemma SurvivorsFindable(s: State, keep: nat, dur: nat)
    requires Shape(s) && CutFits(Active(s), keep, dur)
    ensures Findable(Survivors(s.segments, keep, dur))
  {
  }

  // ---- No gaps ----------------------------------------------------------------------------

  /** Segment numbers are consecutive. */
  ghost predicate Contiguous(segs: seq<Segment>) {
    forall i :: 0 <= i < |segs| ==> segs[i].seqNo == segs[0].seqNo + i
  }

  lemma {:induction false} WriteAllContiguous(s: State, batch: seq<Frame>, ios: seq<Io>)
    requires Inv(s) && Contiguous(s.segments) && |batch| == |ios|
    ensures Contiguous(WriteAll(s, batch, ios).state.segments)
  {
    if batch == [] {
    } else {
      var n := |batch| - 1;
      WriteAllContiguous(s, batch[..n], ios[..n]);
      WriteAllInv(s, batch[..n], ios[..n]);
      var w := WriteAll(s, batch[..n], ios[..n]);
      RotateContiguous(w.state, ios[n]);
      RotateInv(w.state, ios[n]);
    }
  }

  lemma RotateContiguous(s: State, io: Io)
    requires Inv(s) && Contiguous(s.segments)
    ensures Contiguous(Rotate(s, io).state.segments)
  {
  }

  lemma StoppedContiguous(s: State, cut: Cut)
    requires Inv(s) && CanStop(s, cut) && Contiguous(s.segments)
    ensures Contiguous(Stopped(s, cut).segments)
  {
    AppliedContiguous(s, cut.batch, cut.ios, cut.syncOk);
    hide Applied, Dropped;
  }

  lemma AppliedContiguous(s: State, batch: seq<Frame>, ios: seq<Io>, syncOk: bool)
    requires Inv(s) && |batch| == |ios| && Contiguous(s.segments)
    ensures Contiguous(Applied(s, batch, ios, syncOk).segments)
  {
    WriteAllContiguous(s, batch, ios);
    AppliedInv(s, batch, ios, syncOk);
    StripNumbers(Applied(s, batch, ios, syncOk).segments, Flushed(s, batch, ios, syncOk).segments);
    hide Applied, WriteAll, Inv;
  }

  lemma CommitContiguous(s: State, batch: seq<Frame>, ios: seq<Io>, syncOk: bool)
    requires Inv(s) && |batch| == |ios| && Contiguous(s.segments)
    ensures Contiguous(Commit(s, batch, ios, syncOk).state.segments)
  {
    AppliedContiguous(s, batch, ios, syncOk);
    AppliedInv(s, batch, ios, syncOk);
    GcInv(Applied(s, batch, ios, syncOk));
    hide Applied, Dropped, Inv;
  }

  lemma ContiguousDrop(a: seq<Segment>, b: seq<Segment>, d: nat)
    requires Contiguous(a) && |a| == |b| && NumbersFirst(a, b) && d <= |b|
    ensures Contiguous(b[d..])
  {
    forall i | 0 <= i < |b| - d ensures b[d..][i].seqNo == b[d..][0].seqNo + i {
      assert b[d + i].seqNo == a[d + i].seqNo && b[d].seqNo == a[d].seqNo;
    }
  }

  lemma OpenContiguous(segs: seq<Segment>, maxSegmentBytes: int)
    requires Findable(segs) && Contiguous(segs)
    ensures Contiguous(Open(segs, maxSegmentBytes).segments)
  {
    if segs == [] {
      FreshInv(maxSegmentBytes);
    } else {
      var r := Recovered(segs, maxSegmentBytes);
      GcDrops(r);
      ContiguousDrop(segs, r.segments, Dropped(r));
      var g := Gc(r);
      hide Gc, Dropped, Replay, Log, Recovered, Contiguous;
      ContiguousDrop(g.segments, Activate(g).segments, 0);
      assert Activate(g).segments[0..] == Activate(g).segments;
    }
  }
}
