/** The log as the bytes a crash actually cuts. Segment files are concatenated frames; reopening
    decodes each file up to its first bad frame and folds what it finds. */
module WalBytes {
  import opened Types
  import opened WalLog
  import opened WalState
  import opened WalInvariant
  import opened WalRefinement
  import opened WalDurability
  import F = Frames
  import Seqs

  /** The checksum and the JSON codec of record payloads, both arbitrary. */
  datatype Codec = Codec(
    crc: F.Checksum,
    marshal: Rec -> seq<F.byte>,
    unmarshal: (F.byte, seq<F.byte>) -> Option<Rec>)

  const TYPE_EVENT: F.byte := 1
  const TYPE_ACK: F.byte := 2

  function ToRaw(c: Codec, r: Rec): F.Raw {
    F.Raw(if r.EventRec? then TYPE_EVENT else TYPE_ACK, c.marshal(r))
  }

  /** What the payload codec must satisfy: what was marshalled comes back. */
  ghost predicate RoundTrips(c: Codec) {
    forall r: Rec :: c.unmarshal(ToRaw(c, r).recType, c.marshal(r)) == Some(r)
  }

  function Raws(c: Codec, frames: seq<Frame>): seq<F.Raw> {
    seq(|frames|, i requires 0 <= i < |frames| => ToRaw(c, frames[i].rec))
  }

  function FileBytes(c: Codec, frames: seq<Frame>): seq<F.byte> {
    F.EncodeAll(c.crc, Raws(c, frames))
  }

  predicate AllFit(c: Codec, frames: seq<Frame>) {
    forall i :: 0 <= i < |frames| ==> F.Fits(ToRaw(c, frames[i].rec))
  }

  /** A segment file as found at startup. */
  datatype File = File(seqNo: nat, bytes: seq<F.byte>)

  /** Replay returns an index, fails on a payload it cannot parse, or panics on an empty body. */
  datatype Outcome = Index(index: Index) | BadPayload | Panic

  /** Interpret decoded records in order; a record of neither known type is skipped. */
  function Fold(c: Codec, ix: Index, recs: seq<F.Raw>, seg: nat): Outcome
    decreases |recs|
  {
    if recs == [] then Outcome.Index(ix)
    else if recs[0].recType != TYPE_EVENT && recs[0].recType != TYPE_ACK then Fold(c, ix, recs[1..], seg)
    else
      match c.unmarshal(recs[0].recType, recs[0].payload)
      case None => BadPayload
      case Some(r) => Fold(c, ApplyRec(ix, r, seg), recs[1..], seg)
  }

  function ReplayFiles(c: Codec, ix: Index, files: seq<File>): Outcome
    decreases |files|
  {
    if files == [] then Outcome.Index(ix)
    else
      var d := F.Decode(c.crc, files[0].bytes);
      if d.panicked then Panic
      else
        match Fold(c, ix, d.recs, files[0].seqNo)
        case Index(next) => ReplayFiles(c, next, files[1..])
        case other => other
  }

  /** The bytes by which a record is told apart on disk: 1 for an event, 2 for an acknowledgement, after
      the eight bytes of the header. */
  lemma TypeByte(c: Codec, f: Frame)
    ensures |FileBytes(c, [f])| > 8 && FileBytes(c, [f])[8] == (if f.rec.EventRec? then 1 else 2)
    ensures FileBytes(c, [f])[9..] == c.marshal(f.rec)
  {
    var raw := ToRaw(c, f.rec);
    F.FrameLayout(c.crc, raw);
    var bytes := F.Frame(c.crc, raw);
    assert Raws(c, [f]) == [raw] && [raw][1..] == [] && [raw][0] == raw;
    assert F.EncodeAll(c.crc, [raw]) == bytes + F.EncodeAll(c.crc, []) == bytes;
    assert bytes[8] == bytes[8..][0] && bytes[9..] == bytes[8..][1..];
  }

  /** Record i stops a startup: it is of a known type, and its payload cannot be parsed. */
  ghost predicate Unreadable(c: Codec, recs: seq<F.Raw>, i: nat) {
    i < |recs| && recs[i].recType in {1, 2} && c.unmarshal(recs[i].recType, recs[i].payload).None?
  }

  /** A record of neither type. */
  predicate Foreign(r: F.Raw) {
    r.recType != 1 && r.recType != 2
  }

  /** Startup fails on a file exactly when a record of a known type cannot be parsed; others are skipped. */
  lemma {:induction false} FoldFailsExactly(c: Codec, ix: Index, recs: seq<F.Raw>, seg: nat)
    ensures !Fold(c, ix, recs, seg).Panic?
    ensures Fold(c, ix, recs, seg).BadPayload? <==> exists i: nat :: Unreadable(c, recs, i)
    decreases |recs|
  {
    if recs != [] {
      var rest := recs[1..];
      forall i: nat ensures Unreadable(c, recs, i + 1) <==> Unreadable(c, rest, i) { }
      if Unreadable(c, recs, 0) {
      } else if Foreign(recs[0]) {
        FoldFailsExactly(c, ix, rest, seg);
        UnreadableNext(c, recs);
      } else {
        FoldFailsExactly(c, ApplyRec(ix, c.unmarshal(recs[0].recType, recs[0].payload).value, seg), rest, seg);
        UnreadableNext(c, recs);
      }
    }
  }

  lemma UnreadableNext(c: Codec, recs: seq<F.Raw>)
    requires recs != [] && !Unreadable(c, recs, 0)
    ensures (exists i: nat :: Unreadable(c, recs, i)) <==> (exists i: nat :: Unreadable(c, recs[1..], i))
  {
    if i: nat :| Unreadable(c, recs, i) {
      assert Unreadable(c, recs[1..], i - 1);
    }
    if i: nat :| Unreadable(c, recs[1..], i) {
      assert Unreadable(c, recs, i + 1);
    }
  }

  /** A record of neither type makes no difference, wherever it is. */
  lemma {:induction false} ForeignSkipped(c: Codec, ix: Index, before: seq<F.Raw>, r: F.Raw, later: seq<F.Raw>, seg: nat)
    requires Foreign(r)
    ensures Fold(c, ix, before + [r] + later, seg) == Fold(c, ix, before + later, seg)
    decreases |before|
  {
    if before == [] {
      assert (before + [r] + later)[1..] == later && before + later == later;
    } else {
      assert (before + [r] + later)[1..] == before[1..] + [r] + later && (before + later)[1..] == before[1..] + later;
      if Foreign(before[0]) {
        ForeignSkipped(c, ix, before[1..], r, later, seg);
      } else if c.unmarshal(before[0].recType, before[0].payload).Some? {
        ForeignSkipped(c, ApplyRec(ix, c.unmarshal(before[0].recType, before[0].payload).value, seg), before[1..], r, later, seg);
      }
    }
  }

  // ---- Bytes that were written by the log -------------------------------------------------

  lemma {:induction false} FoldIsReplay(c: Codec, base: seq<Located>, frames: seq<Frame>, seg: nat)
    requires RoundTrips(c)
    ensures Fold(c, Replay(base), Raws(c, frames), seg) ==
            Outcome.Index(Replay(base + Locate(Segment(seg, frames, 0, 0, false, 0))))
    decreases |frames|
  {
    var here := Locate(Segment(seg, frames, 0, 0, false, 0));
    if frames == [] {
      assert base + here == base;
    } else {
      var l := Located(frames[0].rec, seg);
      var rest := Locate(Segment(seg, frames[1..], 0, 0, false, 0));
      FoldIsReplay(c, base + [l], frames[1..], seg);
      ReplayAppend(base, l);
      assert Raws(c, frames)[1..] == Raws(c, frames[1..]);
      assert base + here == (base + [l]) + rest;
      assert c.unmarshal(ToRaw(c, l.rec).recType, c.marshal(l.rec)) == Some(l.rec);
    }
  }

  lemma LogFront(segs: seq<Segment>)
    requires segs != []
    ensures Log(segs) == Locate(segs[0]) + Log(segs[1..])
  {
    LogSplit(segs, 1);
    assert Log(segs[..1]) == Locate(segs[0]);
  }

  function Files(c: Codec, segs: seq<Segment>): seq<File> {
    seq(|segs|, i requires 0 <= i < |segs| => File(segs[i].seqNo, FileBytes(c, segs[i].frames)))
  }

  ghost predicate FitsOnDisk(c: Codec, segs: seq<Segment>) {
    forall i :: 0 <= i < |segs| ==> AllFit(c, segs[i].frames)
  }

  /** A file whose whole frames are those of segment g. */
  ghost predicate Holds(c: Codec, f: File, g: Segment) {
    f.seqNo == g.seqNo && F.Decode(c.crc, f.bytes) == F.Decoded(Raws(c, g.frames), false)
  }

  /** Startup on files the log wrote, whole or cut: it replays the frames that are whole. */
  lemma {:induction false} ReplayFilesIsReplay(c: Codec, base: seq<Located>, files: seq<File>, segs: seq<Segment>)
    requires RoundTrips(c) && |files| == |segs|
    requires forall i :: 0 <= i < |segs| ==> Holds(c, files[i], segs[i])
    ensures ReplayFiles(c, Replay(base), files) == Outcome.Index(Replay(base + Log(segs)))
    decreases |files|
  {
    if segs == [] {
      assert base + Log(segs) == base;
    } else {
      assert Holds(c, files[0], segs[0]);
      FoldIsReplay(c, base, segs[0].frames, segs[0].seqNo);
      assert Locate(segs[0]) == Locate(Segment(segs[0].seqNo, segs[0].frames, 0, 0, false, 0));
      ReplayFilesIsReplay(c, base + Locate(segs[0]), files[1..], segs[1..]);
      LogFront(segs);
      Seqs.Assoc(base, Locate(segs[0]), Log(segs[1..]));
    }
  }

  lemma {:induction false} FitsRaws(c: Codec, frames: seq<Frame>)
    requires AllFit(c, frames)
    ensures F.AllFit(Raws(c, frames))
  {
    forall r | r in Raws(c, frames) ensures F.Fits(r) {
      var i :| 0 <= i < |frames| && Raws(c, frames)[i] == r;
    }
  }

  lemma EncodeCons(crc: F.Checksum, recs: seq<F.Raw>, a: nat)
    requires 0 < a <= |recs|
    ensures |F.EncodeAll(crc, recs[..a])| == |F.Frame(crc, recs[0])| + |F.EncodeAll(crc, recs[1..][..a - 1])|
  {
    F.EncodePrefix(crc, recs, a - 1);
  }

  /** Bytes of a longer prefix are more bytes. */
  lemma {:induction false} EncodeMonotone(crc: F.Checksum, recs: seq<F.Raw>, a: nat, b: nat)
    requires a < b <= |recs|
    ensures |F.EncodeAll(crc, recs[..a])| < |F.EncodeAll(crc, recs[..b])|
  {
    if a == 0 {
      EncodeCons(crc, recs, b);
    } else {
      EncodeMonotone(crc, recs[1..], a - 1, b - 1);
      EncodeCons(crc, recs, a);
      EncodeCons(crc, recs, b);
    }
  }

  /** The files after a crash that cut the active one at byte `at`. */
  function CutFiles(c: Codec, segs: seq<Segment>, at: nat): seq<File>
    requires segs != [] && at <= |FileBytes(c, segs[|segs| - 1].frames)|
  {
    var n := |segs| - 1;
    Files(c, segs[..n]) + [File(segs[n].seqNo, FileBytes(c, segs[n].frames)[..at])]
  }

  /** A cut past the durable prefix keeps at least the durable frames. */
  lemma CutKeepsDurable(c: Codec, frames: seq<Frame>, durable: nat, at: nat) returns (keep: nat)
    requires AllFit(c, frames) && durable <= |frames|
    requires |FileBytes(c, frames[..durable])| <= at <= |FileBytes(c, frames)|
    ensures durable <= keep <= |frames|
    ensures F.Decode(c.crc, FileBytes(c, frames)[..at]) == F.Decoded(Raws(c, frames[..keep]), false)
  {
    var raws := Raws(c, frames);
    FitsRaws(c, frames);
    keep := F.PrefixDecodes(c.crc, raws, at);
    assert raws[..keep] == Raws(c, frames[..keep]);
    assert raws[..durable] == Raws(c, frames[..durable]);
    if keep + 1 < durable {
      EncodeMonotone(c.crc, raws, keep + 1, durable);
    }
  }

  lemma FileRoundTrip(c: Codec, frames: seq<Frame>)
    requires AllFit(c, frames)
    ensures F.Decode(c.crc, FileBytes(c, frames)) == F.Decoded(Raws(c, frames), false)
  {
    FitsRaws(c, frames);
    F.RoundTrip(c.crc, Raws(c, frames));
  }

  /** A byte position at which a crash can cut the active file: at or past its durable prefix. */
  predicate CanCut(c: Codec, s: State, at: nat) {
    && s.segments != [] && Active(s).durable <= |Active(s).frames|
    && |FileBytes(c, Active(s).frames[..Active(s).durable])| <= at <= |FileBytes(c, Active(s).frames)|
  }

  /** Cutting the active file at any byte at or past its durable prefix is, for the reader, keeping
      some number of whole frames that includes every durable one. */
  lemma ByteCrashIsFrameCrash(c: Codec, s: State, at: nat) returns (keep: nat)
    requires RoundTrips(c) && Shape(s) && FitsOnDisk(c, s.segments) && CanCut(c, s, at)
    ensures CutFits(Active(s), keep, Active(s).durable)
    ensures ReplayFiles(c, map[], CutFiles(c, s.segments, at)) ==
            Outcome.Index(Replay(Log(Survivors(s.segments, keep, Active(s).durable))))
  {
    assert AllFit(c, Active(s).frames);
    keep := CutKeepsDurable(c, Active(s).frames, Active(s).durable, at);
    AllCutFilesHold(c, s, at, keep);
    hide Log, Replay, ReplayFiles, FitsOnDisk, Shape, FileBytes, F.Decode, Raws, CutFiles, Holds, CanCut, Survivors;
    var left := Survivors(s.segments, keep, Active(s).durable);
    ReplayFilesIsReplay(c, [], CutFiles(c, s.segments, at), left);
    assert [] + Log(left) == Log(left);
    ReplayNothing();
  }

  lemma AllCutFilesHold(c: Codec, s: State, at: nat, keep: nat)
    requires Shape(s) && FitsOnDisk(c, s.segments) && CanCut(c, s, at) && CutFits(Active(s), keep, Active(s).durable)
    requires F.Decode(c.crc, FileBytes(c, Active(s).frames)[..at]) == F.Decoded(Raws(c, Active(s).frames[..keep]), false)
    ensures var files, left := CutFiles(c, s.segments, at), Survivors(s.segments, keep, Active(s).durable);
            |files| == |left| && forall i :: 0 <= i < |left| ==> Holds(c, files[i], left[i])
  {
    var files, left := CutFiles(c, s.segments, at), Survivors(s.segments, keep, Active(s).durable);
    assert |files| == |left| == |s.segments|;
    hide Holds, CutFiles, Survivors, CutFits, F.Decode, Raws, FileBytes, FitsOnDisk, Shape, CanCut;
    forall i | 0 <= i < |left| ensures Holds(c, files[i], left[i]) {
      CutFileHolds(c, s, at, keep, i);
    }
  }

  lemma ReplayNothing()
    ensures Replay([]) == map[]
  {
  }

  lemma CutFileHolds(c: Codec, s: State, at: nat, keep: nat, i: nat)
    requires Shape(s) && FitsOnDisk(c, s.segments) && CanCut(c, s, at) && CutFits(Active(s), keep, Active(s).durable)
    requires F.Decode(c.crc, FileBytes(c, Active(s).frames)[..at]) == F.Decoded(Raws(c, Active(s).frames[..keep]), false)
    requires i < |s.segments|
    ensures var files, left := CutFiles(c, s.segments, at), Survivors(s.segments, keep, Active(s).durable);
            |files| == |left| == |s.segments| && Holds(c, files[i], left[i])
  {
    if i < |s.segments| - 1 {
      FileRoundTrip(c, s.segments[i].frames);
    }
  }

  lemma HeldSurvivesByteCrash(c: Codec, s: State, id: string, p: string, at: nat)
    requires RoundTrips(c) && Inv(s) && Held(s, id, p) && FitsOnDisk(c, s.segments) && CanCut(c, s, at)
    ensures var r := ReplayFiles(c, map[], CutFiles(c, s.segments, at)); r.Index? && Owes(r.index, id, p)
  {
    var keep := ByteCrashIsFrameCrash(c, s, at);
    hide RoundTrips, Log, Replay, ReplayFiles, CutFiles;
    HeldSurvivesCrash(s, keep, Active(s).durable, id, p);
  }

  /** The durability promise at the level of bytes. After an append has been answered nil, the run goes
      on: more batches, failures, crashes inside commits, restarts. At any later moment, also inside the
      commit of another batch, a crash that cuts the active file at any byte at or past its durable
      prefix leaves files whose replay has the pair pending, provided no record written since answers or
      supersedes the pair and no restart was unsafe for its id. */
  lemma NilReplySurvivesByteCrash(
    c: Codec, states: seq<State>, steps: seq<Step>, maxSegmentBytes: int, i: nat, r: nat, j: nat,
    id: string, p: string, cut: Cut, at: nat)
    requires RoundTrips(c) && IsRun(states, steps, maxSegmentBytes) && i < j < |states| && steps[i].CommitStep?
    requires AppendedAt(states[i], steps[i].batch, steps[i].ios, steps[i].syncOk, id, p, r)
    requires KeptFrom(steps[i].batch, id, p, r + 1)
    requires forall k :: i < k < j ==> Spares(states[k], steps[k], id, p)
    requires CanStop(states[j], cut) && KeptFrom(cut.batch, id, p, 0)
    requires FitsOnDisk(c, Stopped(states[j], cut).segments) && CanCut(c, Stopped(states[j], cut), at)
    ensures var o := ReplayFiles(c, map[], CutFiles(c, Stopped(states[j], cut).segments, at));
            o.Index? && Owes(o.index, id, p)
  {
    NilReplyThroughRun(states, steps, maxSegmentBytes, i, r, j, id, p);
    RunInvariant(states, steps, maxSegmentBytes, j);
    hide IsRun, Inv, Held, Spares, KeptFrom, AppendedAt, Stopped, ReplayFiles, CutFiles, CanCut, RoundTrips;
    StoppedHeld(states[j], cut, id, p, 0);
    HeldSurvivesByteCrash(c, Stopped(states[j], cut), id, p, at);
  }

  // ---- Where the promise stops ------------------------------------------------------------

  /** Reopening does not truncate a torn tail, so the promise does not extend to records written
      after one. With leftover bytes t of any length in the active file, in which there is no whole
      frame, the records the next process appends, synced or not, are found by the replay after that
      exactly when their bytes are a prefix of t followed by themselves. */
  lemma AppendsAfterTornTail(c: Codec, whole: seq<Frame>, t: seq<F.byte>, later: seq<Frame>)
    requires AllFit(c, whole) && AllFit(c, later) && F.Decode(c.crc, t).recs == []
    ensures F.FoundAfter(F.Decode(c.crc, FileBytes(c, whole) + (t + FileBytes(c, later))).recs, Raws(c, whole), Raws(c, later))
            <==> FileBytes(c, later) <= t + FileBytes(c, later)
  {
    FitsRaws(c, whole);
    FitsRaws(c, later);
    F.TornTailFindsLater(c.crc, Raws(c, whole), t, Raws(c, later));
  }

  /** The log as it is reopened on a single file of m bytes with no whole frame in it. */
  function TornOpen(m: nat, maxSegmentBytes: int): State {
    State(map[], [Segment(0, [], 0, m, true, 0)], 1, maxSegmentBytes)
  }

  /** It is an empty log but for the size of its active file. */
  lemma TornOpenIsOpen(m: nat, maxSegmentBytes: int)
    ensures var s := Open([EmptySegment(0)], maxSegmentBytes);
            s.segments != [] && TornOpen(m, maxSegmentBytes) == SetActive(s, Active(s).(size := m))
  {
    LogOne(EmptySegment(0));
    assert Referrers(map[], 0) == {};
    assert Log([EmptySegment(0)]) == [];
    hide Log;
    assert Recovered([EmptySegment(0)], maxSegmentBytes) == State(map[], [Segment(0, [], 0, 0, false, 0)], 1, maxSegmentBytes);
  }

  /** The files of a log whose file number 0 begins with leftover bytes. */
  function TornFiles(c: Codec, t: seq<F.byte>, segs: seq<Segment>): seq<File> {
    seq(|segs|, i requires 0 <= i < |segs| =>
      File(segs[i].seqNo, (if segs[i].seqNo == 0 then t else []) + FileBytes(c, segs[i].frames)))
  }

  /** The first append after a torn tail stays in the torn file if it fits into the segment behind it,
      and otherwise goes to a new one; the torn file, which nothing refers to, is then deleted. */
  lemma TornCommit(e: Event, providers: seq<string>, len: nat, m: nat, maxSegmentBytes: int)
    ensures var g := Frame(EventRec(e, providers), len);
            var r := Commit(TornOpen(m, maxSegmentBytes), [g], [Io(true, true, true, true)], true);
            && r.replies == [true] && e.id in r.state.index
            && r.state.segments == [if m + len <= maxSegmentBytes then Segment(0, [g], 1, m + len, true, 1)
                                    else Segment(1, [g], 1, len, true, 1)]
  {
    var s, g, ok := TornOpen(m, maxSegmentBytes), Frame(EventRec(e, providers), len), Io(true, true, true, true);
    assert [] + [g] == [g] && MarkSynced([], []) == [];
    WriteAllOne(s, g, ok);
    var f := Flushed(s, [g], [ok], true);
    if m + len <= maxSegmentBytes {
      assert f.segments == [Segment(0, [g], 1, m + len, true, 0)];
      ApplyAllOne(f, g, Outcome(false, 0), false, true);
    } else {
      assert f.segments == [Segment(0, [], 0, m, false, 0), Segment(1, [g], 1, len, true, 0)];
      assert WriteAll(s, [g], [ok]).outs == [Outcome(false, 1)] && WriteAll(s, [g], [ok]).synced == [false];
      assert f.index == map[];
      ApplyAllOne(f, g, Outcome(false, 1), false, true);
      var a := ApplyOne(f, g.rec, 1);
      assert Applied(s, [g], [ok], true) == a;
      hide WriteAll, Applied, ApplyAll, Flushed;
      TornApplied(f, e, providers, g, len, m);
    }
  }

  lemma TornApplied(f: State, e: Event, providers: seq<string>, g: Frame, len: nat, m: nat)
    requires f.index == map[] && f.segments == [Segment(0, [], 0, m, false, 0), Segment(1, [g], 1, len, true, 0)]
    ensures var a := ApplyOne(f, EventRec(e, providers), 1);
            e.id in Gc(a).index && Gc(a).segments == [Segment(1, [g], 1, len, true, 1)]
  {
    var a := ApplyOne(f, EventRec(e, providers), 1);
    BumpAt(f.segments, 1, 1, 1);
    assert a.segments == [Segment(0, [], 0, m, false, 0), Segment(1, [g], 1, len, true, 1)];
    var d := DropFront(a, 1);
    assert d.segments == [Segment(1, [g], 1, len, true, 1)];
    assert Gc(d) == d && Gc(a) == Gc(d);
  }

  /** One such loss, and exactly when. A crash tears the first frame of a file anywhere past its length
      field. The next process sees an empty log and appends an event whose frame does not fill the torn
      one; it is written, synced and answered nil. The replay after that has it exactly when the torn
      bytes leave no room for it in the segment. */
  lemma NilReplyLostBehindTornTail(
    c: Codec, torn: Rec, m: nat, e: Event, providers: seq<string>, len: nat, maxSegmentBytes: int)
    requires RoundTrips(c) && F.Fits(ToRaw(c, torn))
    requires var g := Frame(EventRec(e, providers), len); AllFit(c, [g]) && len == |FileBytes(c, [g])|
    requires 4 <= m && m + len < |F.Frame(c.crc, ToRaw(c, torn))|
    ensures var t := F.Frame(c.crc, ToRaw(c, torn))[..m];
            var s := TornOpen(m, maxSegmentBytes);
            var r := Commit(s, [Frame(EventRec(e, providers), len)], [Io(true, true, true, true)], true);
            var after := ReplayFiles(c, map[], TornFiles(c, t, r.state.segments));
            && ReplayFiles(c, map[], TornFiles(c, t, s.segments)) == Outcome.Index(s.index)
            && r.replies == [true]
            && after.Index? && (e.id in after.index <==> m + len > maxSegmentBytes)
  {
    var raw, t := ToRaw(c, torn), F.Frame(c.crc, ToRaw(c, torn))[..m];
    var g := Frame(EventRec(e, providers), len);
    TornCommit(e, providers, len, m, maxSegmentBytes);
    F.UnfilledTornTail(c.crc, [], raw, m, FileBytes(c, [g]));
    F.UnfilledTornTail(c.crc, [], raw, m, []);
    assert F.EncodeAll(c.crc, []) + (t + FileBytes(c, [g])) == t + FileBytes(c, [g]);
    assert F.EncodeAll(c.crc, []) + (t + []) == t + FileBytes(c, []);
    hide Commit, F.Decode, F.Frame, FileBytes, ReplayFiles, RoundTrips;
    assert TornFiles(c, t, [Segment(0, [], 0, m, true, 0)]) == [File(0, t + FileBytes(c, []))];
    NothingReplayed(c, t + FileBytes(c, []));
    if m + len <= maxSegmentBytes {
      assert TornFiles(c, t, [Segment(0, [g], 1, m + len, true, 1)]) == [File(0, t + FileBytes(c, [g]))];
      NothingReplayed(c, t + FileBytes(c, [g]));
    } else {
      var segs := [Segment(1, [g], 1, len, true, 1)];
      assert TornFiles(c, t, segs) == [File(1, FileBytes(c, [g]))] by { assert [] + FileBytes(c, [g]) == FileBytes(c, [g]); }
      OneFrameReplayed(c, g, segs[0]);
    }
  }

  lemma OneFrameReplayed(c: Codec, g: Frame, seg: Segment)
    requires RoundTrips(c) && AllFit(c, [g]) && g.rec.EventRec? && seg.seqNo == 1 && seg.frames == [g]
    ensures var o := ReplayFiles(c, map[], [File(1, FileBytes(c, [g]))]); o.Index? && g.rec.event.id in o.index
  {
    FileRoundTrip(c, [g]);
    hide RoundTrips, FileBytes, F.Decode, ReplayFiles;
    var file := File(1, FileBytes(c, [g]));
    assert Holds(c, file, seg);
    ReplayNothing();
    ReplayFilesIsReplay(c, [], [file], [seg]);
    LogOne(seg);
    var l := Located(g.rec, 1);
    assert [] + Log([seg]) == [] + [l];
    ReplayAppend([], l);
  }

  lemma NothingReplayed(c: Codec, bytes: seq<F.byte>)
    requires F.Decode(c.crc, bytes) == F.Decoded([], false)
    ensures ReplayFiles(c, map[], [File(0, bytes)]) == Outcome.Index(map[])
  {
    assert [File(0, bytes)][1..] == [];
  }
}
