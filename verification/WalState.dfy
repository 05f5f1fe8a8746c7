/** The write-ahead log as a state machine on values: what each operation of the log does to the
    segment files and to the in-memory index, with every I/O outcome chosen by the environment. */
module WalState {
  import opened WalLog

  /** One encoded record; `len` is the byte length of its frame. A write request is its frame. */
  datatype Frame = Frame(rec: Rec, len: nat)

  /** A segment: the file (`frames`, of which the first `durable` survive any crash) and the
      in-memory bookkeeping of it (`size`, whether the handle is open, `refCount`). */
  datatype Segment = Segment(seqNo: nat, frames: seq<Frame>, durable: nat, size: nat, open: bool, refCount: int)

  datatype State = State(index: Index, segments: seq<Segment>, nextSeq: nat, maxSegmentBytes: int)

  /** Environment outcomes for one request of a batch: of its own write and, if it triggers a
      rotation, of the three operations of that rotation. A failed write leaves no bytes. */
  datatype Io = Io(writeOk: bool, syncOk: bool, closeOk: bool, createOk: bool)

  function Active(s: State): Segment
    requires s.segments != []
  {
    s.segments[|s.segments| - 1]
  }

  function SetActive(s: State, g: Segment): State
    requires s.segments != []
  {
    s.(segments := s.segments[|s.segments| - 1 := g])
  }

  function EmptySegment(seqNo: nat): Segment {
    Segment(seqNo, [], 0, 0, true, 0)
  }

  // ---- Writing ----------------------------------------------------------------------------

  datatype Rotated = Rotated(state: State, ok: bool)

  /** Sync, close, create. Closing drops the handle even when it reports an error, and every
      operation on a dropped handle fails. */
  function Rotate(s: State, io: Io): Rotated
    requires s.segments != []
  {
    var a := Active(s);
    if !io.syncOk || !a.open then Rotated(s, false)
    else
      var closed := SetActive(s, a.(durable := |a.frames|, open := false));
      if !io.closeOk || !io.createOk then Rotated(closed, false)
      else Rotated(closed.(segments := closed.segments + [EmptySegment(s.nextSeq)], nextSeq := s.nextSeq + 1), true)
  }

  /** Per request: whether its write failed, and the segment it went to. */
  datatype Outcome = Outcome(err: bool, seg: nat)

  /** Progress of the write loop. `synced[i]` means no later sync matters to request i. */
  datatype Written = Written(state: State, outs: seq<Outcome>, synced: seq<bool>)

  function WriteFrame(w: Written, f: Frame, writeOk: bool): Written
    requires w.state.segments != []
  {
    var a := Active(w.state);
    if writeOk && a.open then
      Written(SetActive(w.state, a.(frames := a.frames + [f], size := a.size + f.len)),
              w.outs + [Outcome(false, a.seqNo)], w.synced + [false])
    else
      Written(w.state, w.outs + [Outcome(true, a.seqNo)], w.synced + [false])
  }

  /** A successful rotation has synced everything written so far. */
  function MarkSynced(outs: seq<Outcome>, synced: seq<bool>): seq<bool>
    requires |outs| == |synced|
  {
    seq(|synced|, i requires 0 <= i < |synced| => if outs[i].err then synced[i] else true)
  }

  function WriteOne(w: Written, f: Frame, io: Io): Written
    requires w.state.segments != [] && |w.outs| == |w.synced|
  {
    var a := Active(w.state);
    if a.size + f.len > w.state.maxSegmentBytes then
      var r := Rotate(w.state, io);
      if !r.ok then Written(r.state, w.outs + [Outcome(true, 0)], w.synced + [true])
      else WriteFrame(Written(r.state, w.outs, MarkSynced(w.outs, w.synced)), f, io.writeOk)
    else
      WriteFrame(w, f, io.writeOk)
  }

  function WriteAll(s: State, batch: seq<Frame>, ios: seq<Io>): (w: Written)
    requires s.segments != [] && |batch| == |ios|
    ensures w.state.segments != [] && |w.outs| == |batch| == |w.synced|
  {
    if batch == [] then Written(s, [], [])
    else
      var n := |batch| - 1;
      WriteOne(WriteAll(s, batch[..n], ios[..n]), batch[n], ios[n])
  }

  function FinalSync(s: State, ok: bool): State
    requires s.segments != []
  {
    var a := Active(s);
    if ok && a.open then SetActive(s, a.(durable := |a.frames|)) else s
  }

  // ---- Applying ---------------------------------------------------------------------------

  /** Add d to the reference count of the first segment numbered `seqNo`, if there is one. */
  function Bump(segs: seq<Segment>, seqNo: nat, d: int): seq<Segment> {
    if segs == [] then []
    else if segs[0].seqNo == seqNo then [segs[0].(refCount := segs[0].refCount + d)] + segs[1..]
    else [segs[0]] + Bump(segs[1..], seqNo, d)
  }

  function ApplyOne(s: State, r: Rec, seg: nat): State {
    match r
    case EventRec(e, ps) =>
      var released := if e.id in s.index then Bump(s.segments, s.index[e.id].segSeq, -1) else s.segments;
      s.(index := ApplyRec(s.index, r, seg), segments := Bump(released, seg, 1))
    case AckRec(id, p, _) =>
      if id in s.index && s.index[id].pending - {p} == {} then
        s.(index := ApplyRec(s.index, r, seg), segments := Bump(s.segments, s.index[id].segSeq, -1))
      else
        s.(index := ApplyRec(s.index, r, seg))
  }

  /** The reply to a request is nil exactly when its write succeeded and a sync followed it. */
  predicate Acked(o: Outcome, synced: bool, finalOk: bool) {
    !o.err && (synced || finalOk)
  }

  function ApplyAll(s: State, batch: seq<Frame>, outs: seq<Outcome>, synced: seq<bool>, finalOk: bool): State
    requires |batch| == |outs| == |synced|
  {
    if batch == [] then s
    else
      var n := |batch| - 1;
      var t := ApplyAll(s, batch[..n], outs[..n], synced[..n], finalOk);
      if Acked(outs[n], synced[n], finalOk) then ApplyOne(t, batch[n].rec, outs[n].seg) else t
  }

  /** Delete unreferenced segments from the front, never the active one. */
  function Gc(s: State): State
    decreases |s.segments|
  {
    if |s.segments| > 1 && s.segments[0].refCount == 0 then Gc(s.(segments := s.segments[1..])) else s
  }

  /** How many segments Gc deletes. */
  function Dropped(s: State): nat
    decreases |s.segments|
  {
    if |s.segments| > 1 && s.segments[0].refCount == 0 then 1 + Dropped(s.(segments := s.segments[1..])) else 0
  }

  function DropFront(s: State, k: nat): State
    requires k <= |s.segments|
  {
    s.(segments := s.segments[k..])
  }

  // ---- One batch --------------------------------------------------------------------------

  datatype Committed = Committed(state: State, replies: seq<bool>)

  /** State after the writes and the final sync, before anything is applied. */
  function Flushed(s: State, batch: seq<Frame>, ios: seq<Io>, syncOk: bool): State
    requires s.segments != [] && |batch| == |ios|
  {
    FinalSync(WriteAll(s, batch, ios).state, syncOk)
  }

  predicate FinalOk(s: State, batch: seq<Frame>, ios: seq<Io>, syncOk: bool)
    requires s.segments != [] && |batch| == |ios|
  {
    syncOk && Active(WriteAll(s, batch, ios).state).open
  }

  function Replies(w: Written, finalOk: bool): seq<bool>
    requires |w.outs| == |w.synced|
  {
    seq(|w.outs|, i requires 0 <= i < |w.outs| => Acked(w.outs[i], w.synced[i], finalOk))
  }

  /** State once every durable request is applied, before any segment is deleted. */
  function Applied(s: State, batch: seq<Frame>, ios: seq<Io>, syncOk: bool): State
    requires s.segments != [] && |batch| == |ios|
  {
    var w := WriteAll(s, batch, ios);
    ApplyAll(Flushed(s, batch, ios, syncOk), batch, w.outs, w.synced, FinalOk(s, batch, ios, syncOk))
  }

  function Commit(s: State, batch: seq<Frame>, ios: seq<Io>, syncOk: bool): Committed
    requires s.segments != [] && |batch| == |ios|
  {
    Committed(Gc(Applied(s, batch, ios, syncOk)), Replies(WriteAll(s, batch, ios), FinalOk(s, batch, ios, syncOk)))
  }

  // ---- The log on disk --------------------------------------------------------------------

  function Locate(g: Segment): seq<Located> {
    seq(|g.frames|, i requires 0 <= i < |g.frames| => Located(g.frames[i].rec, g.seqNo))
  }

  /** Every record on disk, oldest first. */
  function Log(segs: seq<Segment>): seq<Located> {
    if segs == [] then []
    else var n := |segs| - 1; Log(segs[..n]) + Locate(segs[n])
  }

  /** How much of the log survives a crash now. */
  function DurableLen(segs: seq<Segment>): int
    requires segs != []
  {
    var n := |segs| - 1;
    |Log(segs[..n])| + segs[n].durable
  }

  // ---- Crash and reopen -------------------------------------------------------------------

  function Survivor(g: Segment, ix: Index): Segment {
    Segment(g.seqNo, g.frames, g.durable, 0, false, Count(ix, g.seqNo))
  }

  function TotalLen(frames: seq<Frame>): nat {
    if frames == [] then 0 else TotalLen(frames[..|frames| - 1]) + frames[|frames| - 1].len
  }

  /** Number of unresolved entries whose event record is in segment `seqNo`. */
  function Count(ix: Index, seqNo: nat): nat {
    |Referrers(ix, seqNo)|
  }

  function Referrers(ix: Index, seqNo: nat): set<string> {
    set id | id in ix && ix[id].segSeq == seqNo
  }

  /** The index a process starts with: replay every surviving segment. */
  function Recovered(segs: seq<Segment>, maxSegmentBytes: int): State {
    State(Replay(Log(segs)),
          seq(|segs|, i requires 0 <= i < |segs| => Survivor(segs[i], Replay(Log(segs)))),
          if segs == [] then 0 else segs[|segs| - 1].seqNo + 1,
          maxSegmentBytes)
  }

  /** Make the last segment the active one, creating the first segment of a fresh directory. */
  function Activate(s: State): State {
    if s.segments == [] then s.(segments := [EmptySegment(s.nextSeq)], nextSeq := s.nextSeq + 1)
    else
      var a := Active(s);
      SetActive(s, a.(size := TotalLen(a.frames), open := true))
  }

  function Open(segs: seq<Segment>, maxSegmentBytes: int): State {
    Activate(Gc(Recovered(segs, maxSegmentBytes)))
  }

  /** How a process stops, and what the next one finds. It stops anywhere in a commit of `batch`, or
      between commits (the empty batch): after its first writes, which `batch` then stands for, before
      or after its final sync, or with `dropped` segments already deleted. The next process finds
      `keep` frames of the active segment, of which at least `dur` are on stable storage: after a power
      loss all that is found is, after the death of the process alone all is found but none is synced. */
  datatype Cut = Cut(batch: seq<Frame>, ios: seq<Io>, syncOk: bool, dropped: nat, keep: nat, dur: nat)

  predicate CutFits(g: Segment, keep: nat, dur: nat) {
    g.durable <= dur <= keep <= |g.frames|
  }

  /** What is found of the files: only the active segment can have lost frames. */
  function Survivors(segs: seq<Segment>, keep: nat, dur: nat): seq<Segment>
    requires segs != [] && CutFits(segs[|segs| - 1], keep, dur)
  {
    var n := |segs| - 1;
    segs[..n] + [segs[n].(frames := segs[n].frames[..keep], durable := dur)]
  }

  predicate CanStop(s: State, cut: Cut) {
    && s.segments != [] && |cut.batch| == |cut.ios|
    && cut.dropped <= Dropped(Applied(s, cut.batch, cut.ios, cut.syncOk))
    && cut.dropped < |Applied(s, cut.batch, cut.ios, cut.syncOk).segments|
  }

  /** The files the moment the process stops. What it had in memory is about to be forgotten. */
  function Stopped(s: State, cut: Cut): (t: State)
    requires CanStop(s, cut)
    ensures t.segments != []
  {
    DropFront(Applied(s, cut.batch, cut.ios, cut.syncOk), cut.dropped)
  }

  predicate CanCrash(s: State, cut: Cut) {
    CanStop(s, cut) && CutFits(Active(Stopped(s, cut)), cut.keep, cut.dur)
  }

  /** The files the next process finds. */
  function Found(s: State, cut: Cut): seq<Segment>
    requires CanCrash(s, cut)
  {
    Survivors(Stopped(s, cut).segments, cut.keep, cut.dur)
  }

  function TotalBytes(segs: seq<Segment>): nat {
    if segs == [] then 0 else TotalBytes(segs[..|segs| - 1]) + segs[|segs| - 1].size
  }
}
