/** The write-ahead log as the program runs it: fields updated in place, loops over the batch, the
    segments and the index. Each method is proved equal to its counterpart in WalState. */
module Wal {
  import opened Types
  import opened WalLog
  import opened WalState
  import opened WalRefinement
  import opened Seqs

  /** One unresolved entry as handed to the dispatcher. */
  datatype PendingEntry = PendingEntry(event: Event, pending: seq<string>)

  /** The elements of a list, each once. */
  ghost predicate Lists<T(!new)>(xs: seq<T>, s: set<T>) {
    && (forall i, j :: 0 <= i < j < |xs| ==> xs[i] != xs[j])
    && (forall x :: x in xs <==> x in s)
  }

  lemma ListsOneMore<T(!new)>(xs: seq<T>, s: set<T>, x: T)
    requires Lists(xs, s) && x !in s
    ensures Lists(xs + [x], s + {x})
  {
  }

  function Ids(entries: seq<PendingEntry>): seq<string> {
    seq(|entries|, i requires 0 <= i < |entries| => entries[i].event.id)
  }

  /** The entries of an index with the given ids, each once, in some order. */
  ghost predicate SnapshotOf(entries: seq<PendingEntry>, ids: set<string>, ix: Index) {
    Lists(Ids(entries), ids) && forall i :: 0 <= i < |entries| ==> EntryOf(entries[i], ix)
  }

  ghost predicate EntryOf(entry: PendingEntry, ix: Index) {
    var id := entry.event.id;
    id in ix && entry.event == ix[id].event && Lists(entry.pending, ix[id].pending)
  }

  class WAL {
    const maxSegmentBytes: int
    const maxBytes: int
    var index: Index
    var segments: seq<Segment>
    var nextSeq: nat

    ghost function St(): State
      reads this
    {
      State(index, segments, nextSeq, maxSegmentBytes)
    }

    /** Replays the segment files, oldest first, counts references, deletes the unreferenced front,
        and makes the last segment active. */
    constructor Open(files: seq<Segment>, maxSegmentBytes: int, maxBytes: int)
      requires forall i, j :: 0 <= i < j < |files| ==> files[i].seqNo < files[j].seqNo
      ensures St() == WalState.Open(files, maxSegmentBytes) && this.maxBytes == maxBytes
    {
      this.maxSegmentBytes, this.maxBytes := maxSegmentBytes, maxBytes;
      index, segments, nextSeq := map[], [], 0;
      new;
      ReplayFiles(files);
      var refs := CountReferences(index);
      for i := 0 to |files|
        invariant index == Replay(Log(files)) && nextSeq == NextAfter(files)
        invariant |segments| == i && forall k :: 0 <= k < i ==> segments[k] == Survivor(files[k], index)
      {
        var g := files[i];
        segments := segments + [Segment(g.seqNo, g.frames, g.durable, 0, false, At(refs, g.seqNo))];
      }
      assert St() == Recovered(files, maxSegmentBytes);
      GcSegments();
      ActivateLast();
    }

    static function NextAfter(files: seq<Segment>): nat {
      if files == [] then 0 else files[|files| - 1].seqNo + 1
    }

    /** The replay loop over the segment files. */
    method ReplayFiles(files: seq<Segment>)
      requires index == map[] && segments == [] && nextSeq == 0
      requires forall i, j :: 0 <= i < j < |files| ==> files[i].seqNo < files[j].seqNo
      modifies this`index, this`nextSeq
      ensures index == Replay(Log(files)) && nextSeq == NextAfter(files)
    {
      for i := 0 to |files|
        invariant index == Replay(Log(files[..i])) && nextSeq == NextAfter(files[..i])
      {
        ReplayRecords(files[i], Log(files[..i]));
        TakeTake(files, i, i + 1);
        if files[i].seqNo >= nextSeq {
          nextSeq := files[i].seqNo + 1;
        }
      }
      TakeAll(files);
    }

    /** The replay loop over one segment's records. */
    method ReplayRecords(file: Segment, ghost before: seq<Located>)
      requires index == Replay(before)
      modifies this`index
      ensures index == Replay(before + Locate(file))
    {
      assert before + Locate(file)[..0] == before;
      for j := 0 to |file.frames|
        invariant j <= |Locate(file)| && index == Replay(before + Locate(file)[..j])
      {
        ReplayOneMore(before, file, j);
        hide Locate, Replay, ApplyRec;
        ReplayRecord(file.frames[j].rec, file.seqNo);
      }
      TakeAll(Locate(file));
    }

    static lemma ReplayOneMore(before: seq<Located>, file: Segment, j: nat)
      requires j < |file.frames|
      ensures j < |Locate(file)| == |file.frames|
      ensures Replay(before + Locate(file)[..j + 1]) ==
              ApplyRec(Replay(before + Locate(file)[..j]), file.frames[j].rec, file.seqNo)
    {
      var here := Locate(file);
      ReplayAppend(before + here[..j], here[j]);
      Assoc(before, here[..j], [here[j]]);
      assert here[..j + 1] == here[..j] + [here[j]];
    }

    /** What replay does with one record. */
    method ReplayRecord(r: Rec, segSeq: nat)
      modifies this`index
      ensures index == ApplyRec(old(index), r, segSeq)
    {
      match r
      case EventRec(event, providers) =>
        index := index[event.id := Entry(event, Members(providers), segSeq)];
      case AckRec(id, provider, _) =>
        if id in index {
          var left := index[id].pending - {provider};
          if left == {} {
            index := index - {id};
          } else {
            index := index[id := index[id].(pending := left)];
          }
        }
    }

    /** The last segment becomes the active one; a fresh directory gets its first segment. */
    method ActivateLast()
      modifies this`segments, this`nextSeq
      ensures St() == Activate(old(St()))
    {
      if |segments| == 0 {
        segments := segments + [EmptySegment(nextSeq)];
        nextSeq := nextSeq + 1;
      } else {
        var last := |segments| - 1;
        segments := segments[last := segments[last].(size := TotalLen(segments[last].frames), open := true)];
      }
    }

    static function At(refs: map<nat, nat>, q: nat): nat {
      if q in refs then refs[q] else 0
    }

    /** Of the entries in `done`, refs counts those written in each segment. */
    static ghost predicate Counts(refs: map<nat, nat>, index: Index, done: set<string>) {
      forall q: nat :: At(refs, q) == |Referrers(index, q) * done|
    }

    /** How many entries of an index were written in each segment. */
    static method CountReferences(index: Index) returns (refs: map<nat, nat>)
      ensures forall q: nat :: At(refs, q) == Count(index, q)
    {
      refs := map[];
      var todo := index.Keys;
      CountsStart(index);
      hide Counts, Count, Referrers;
      while todo != {}
        invariant todo <= index.Keys && Counts(refs, index, index.Keys - todo)
        decreases todo
      {
        var id :| id in todo;
        CountsNext(refs, index, todo, id);
        var q := index[id].segSeq;
        refs := refs[q := (if q in refs then refs[q] else 0) + 1];
        todo := todo - {id};
      }
      AllCounted(refs, index);
    }

    static lemma CountsStart(index: Index)
      ensures Counts(map[], index, index.Keys - index.Keys)
    {
      forall q: nat ensures |Referrers(index, q) * (index.Keys - index.Keys)| == 0 {
        assert Referrers(index, q) * (index.Keys - index.Keys) == {};
      }
    }

    static lemma CountsNext(refs: map<nat, nat>, index: Index, todo: set<string>, id: string)
      requires id in todo && todo <= index.Keys && Counts(refs, index, index.Keys - todo)
      ensures var q := index[id].segSeq; Counts(refs[q := At(refs, q) + 1], index, index.Keys - (todo - {id}))
    {
      var done := index.Keys - todo;
      var next := refs[index[id].segSeq := At(refs, index[id].segSeq) + 1];
      assert index.Keys - (todo - {id}) == done + {id};
      hide Referrers;
      forall q: nat ensures At(next, q) == |Referrers(index, q) * (done + {id})| {
        OneMoreReference(index, done, id, q);
      }
    }

    static lemma AllCounted(refs: map<nat, nat>, index: Index)
      requires Counts(refs, index, index.Keys - {})
      ensures forall q: nat :: At(refs, q) == Count(index, q)
    {
      forall q: nat ensures Referrers(index, q) * (index.Keys - {}) == Referrers(index, q) { }
    }

    static lemma OneMoreReference(index: Index, done: set<string>, id: string, q: nat)
      requires id in index && id !in done
      ensures |Referrers(index, q) * (done + {id})| == |Referrers(index, q) * done| + (if index[id].segSeq == q then 1 else 0)
    {
      var r := Referrers(index, q);
      assert r * (done + {id}) == if index[id].segSeq == q then r * done + {id} else r * done;
    }

    /** Sync and close the active segment, then create the next one; false on the first failure. */
    method Rotate(io: Io) returns (ok: bool)
      requires segments != []
      modifies this
      ensures St() == WalState.Rotate(old(St()), io).state && ok == WalState.Rotate(old(St()), io).ok
    {
      var last := |segments| - 1;
      if !(io.syncOk && segments[last].open) {
        return false;
      }
      segments := segments[last := segments[last].(durable := |segments[last].frames|)];
      segments := segments[last := segments[last].(open := false)];
      if !io.closeOk {
        return false;
      }
      if !io.createOk {
        return false;
      }
      var seg := EmptySegment(nextSeq);
      nextSeq := nextSeq + 1;
      segments := segments + [seg];
      return true;
    }

    /** Adds d to the reference count of the segment numbered seqNo, searching from the oldest. */
    method AddRef(seqNo: nat, d: int)
      modifies this`segments
      ensures segments == Bump(old(segments), seqNo, d)
    {
      for i := 0 to |segments|
        invariant segments == old(segments)
        invariant forall j :: 0 <= j < i ==> segments[j].seqNo != seqNo
      {
        if segments[i].seqNo == seqNo {
          BumpFirst(segments, seqNo, d, i);
          segments := segments[i := segments[i].(refCount := segments[i].refCount + d)];
          return;
        }
      }
      BumpNone(segments, seqNo, d);
    }

    static lemma BumpFirst(segs: seq<Segment>, seqNo: nat, d: int, i: nat)
      requires i < |segs| && segs[i].seqNo == seqNo && forall j :: 0 <= j < i ==> segs[j].seqNo != seqNo
      ensures Bump(segs, seqNo, d) == segs[i := segs[i].(refCount := segs[i].refCount + d)]
    {
      WalInvariant.BumpAt(segs, seqNo, d, i);
    }

    static lemma {:induction false} BumpNone(segs: seq<Segment>, seqNo: nat, d: int)
      requires forall j :: 0 <= j < |segs| ==> segs[j].seqNo != seqNo
      ensures Bump(segs, seqNo, d) == segs
    {
      if segs != [] {
        BumpNone(segs[1..], seqNo, d);
      }
    }

    /** The state update of one durable request, in the segment its frame landed in. */
    method Apply(r: Rec, segSeq: nat)
      modifies this`index, this`segments
      ensures St() == ApplyOne(old(St()), r, segSeq)
    {
      match r
      case EventRec(event, providers) =>
        if event.id in index {
          AddRef(index[event.id].segSeq, -1);
        }
        index := index[event.id := Entry(event, Members(providers), segSeq)];
        AddRef(segSeq, 1);
      case AckRec(id, provider, _) =>
        if id !in index {
          return;
        }
        var entry := index[id];
        var left := entry.pending - {provider};
        if left == {} {
          index := index - {id};
          AddRef(entry.segSeq, -1);
        } else {
          index := index[id := entry.(pending := left)];
        }
    }

    /** One turn of the write loop: rotate if the frame does not fit, then write it. */
    method WriteRequest(f: Frame, io: Io) returns (o: Outcome, terminal: bool, rotated: bool)
      requires segments != []
      modifies this
      ensures segments != []
      ensures Written(St(), [o], [terminal]) == WriteOne(Written(old(St()), [], []), f, io)
      ensures rotated <==> Rotates(old(St()), f, io)
    {
      var active := |segments| - 1;
      rotated := false;
      if segments[active].size + f.len > maxSegmentBytes {
        rotated := Rotate(io);
        if !rotated {
          return Outcome(true, 0), true, false;
        }
        active := |segments| - 1;
      }
      o := Outcome(true, segments[active].seqNo);
      if io.writeOk && segments[active].open {
        segments := segments[active := segments[active].(frames := segments[active].frames + [f],
                                                         size := segments[active].size + f.len)];
        o := Outcome(false, segments[active].seqNo);
      }
      terminal := false;
    }

    /** A rotation has synced every earlier request of the batch that was written. */
    static method MarkPrior(outs: array<Outcome>, synced: array<bool>, n: nat)
      requires n <= outs.Length == synced.Length
      modifies synced
      ensures synced[..n] == MarkSynced(outs[..n], old(synced[..n])) && synced[n..] == old(synced[n..])
    {
      for j := 0 to n
        invariant forall k :: 0 <= k < n ==> synced[k] == if k < j && !outs[k].err then true else old(synced[k])
        invariant synced[n..] == old(synced[n..])
      {
        if !outs[j].err {
          synced[j] := true;
        }
      }
    }

    /** The write loop: every frame in order, rotating as needed, recording each outcome. */
    method WriteBatch(batch: seq<Frame>, ios: seq<Io>, outs: array<Outcome>, synced: array<bool>)
      requires segments != [] && |batch| == |ios| == outs.Length == synced.Length
      modifies this, outs, synced
      ensures segments != []
      ensures Written(St(), outs[..], synced[..]) == WriteAll(old(St()), batch, ios)
    {
      assert WriteAll(St(), batch[..0], ios[..0]) == Written(St(), [], []);
      hide WriteAll, WriteOne, MarkSynced, Rotates;
      for i := 0 to |batch|
        invariant segments != []
        invariant Written(St(), outs[..i], synced[..i]) == WriteAll(old(St()), batch[..i], ios[..i])
      {
        WriteAllSnoc(old(St()), batch, ios, i);
        WriteOneLocal(WriteAll(old(St()), batch[..i], ios[..i]), batch[i], ios[i]);
        var o, terminal, rotated := WriteRequest(batch[i], ios[i]);
        if rotated {
          MarkPrior(outs, synced, i);
        }
        outs[i], synced[i] := o, terminal;
        assert outs[..i + 1] == outs[..i] + [o] && synced[..i + 1] == synced[..i] + [terminal];
      }
      TakeAll(batch);
      TakeAll(ios);
      assert outs[..|batch|] == outs[..] && synced[..|batch|] == synced[..];
    }

    /** Write every frame, rotating as needed; sync; apply and answer each request; collect. */
    method CommitBatch(batch: seq<Frame>, ios: seq<Io>, syncOk: bool) returns (replies: seq<bool>)
      requires segments != [] && |batch| == |ios|
      modifies this
      ensures Committed(St(), replies) == Commit(old(St()), batch, ios, syncOk) && |replies| == |batch|
    {
      hide WriteAll, ApplyAll, Gc, Acked;
      var outs := new Outcome[|batch|](_ => Outcome(false, 0));
      var synced := new bool[|batch|](_ => false);
      WriteBatch(batch, ios, outs, synced);
      var active := |segments| - 1;
      var finalOk := syncOk && segments[active].open;
      if finalOk {
        segments := segments[active := segments[active].(durable := |segments[active].frames|)];
      }
      replies := ApplyBatch(batch, outs[..], synced[..], finalOk);
      GcSegments();
    }

    static lemma WriteAllSnoc(s: State, batch: seq<Frame>, ios: seq<Io>, i: nat)
      requires s.segments != [] && |batch| == |ios| && i < |batch|
      ensures WriteAll(s, batch[..i + 1], ios[..i + 1]) == WriteOne(WriteAll(s, batch[..i], ios[..i]), batch[i], ios[i])
    {
      TakeTake(batch, i, i + 1);
      TakeTake(ios, i, i + 1);
    }

    /** The apply loop: requests in order, each answered nil only if it is durable. */
    method ApplyBatch(batch: seq<Frame>, outs: seq<Outcome>, synced: seq<bool>, finalOk: bool) returns (replies: seq<bool>)
      requires |batch| == |outs| == |synced|
      modifies this`index, this`segments
      ensures St() == ApplyAll(old(St()), batch, outs, synced, finalOk)
      ensures replies == seq(|outs|, i requires 0 <= i < |outs| => Acked(outs[i], synced[i], finalOk))
    {
      replies := [];
      for i := 0 to |batch|
        invariant St() == ApplyAll(old(St()), batch[..i], outs[..i], synced[..i], finalOk)
        invariant |replies| == i && forall j :: 0 <= j < i ==> replies[j] == Acked(outs[j], synced[j], finalOk)
      {
        TakeTake(batch, i, i + 1);
        TakeTake(outs, i, i + 1);
        TakeTake(synced, i, i + 1);
        var ok := !outs[i].err && (synced[i] || finalOk);
        if ok {
          Apply(batch[i].rec, outs[i].seg);
        }
        replies := replies + [ok];
      }
      TakeAll(batch);
      TakeAll(outs);
      TakeAll(synced);
    }

    /** Writing this frame starts a new segment. */
    static predicate Rotates(s: State, f: Frame, io: Io)
      requires s.segments != []
    {
      Active(s).size + f.len > s.maxSegmentBytes && WalState.Rotate(s, io).ok
    }

    /** What one request does depends on the state alone; what it records of earlier ones is only
        that a rotation synced them. */
    static lemma WriteOneLocal(w: Written, f: Frame, io: Io)
      requires w.state.segments != [] && |w.outs| == |w.synced|
      ensures var v := WriteOne(Written(w.state, [], []), f, io);
              WriteOne(w, f, io) ==
              Written(v.state, w.outs + v.outs,
                      (if Rotates(w.state, f, io) then MarkSynced(w.outs, w.synced) else w.synced) + v.synced)
    {
      assert forall o: Outcome :: [] + [o] == [o];
      assert forall b: bool :: [] + [b] == [b];
      assert MarkSynced([], []) == [];
    }

    method GcSegments()
      modifies this`segments
      ensures St() == Gc(old(St()))
    {
      while |segments| > 1 && segments[0].refCount == 0
        invariant Gc(St()) == Gc(old(St()))
        decreases |segments|
      {
        segments := segments[1..];
      }
    }

    method TotalBytes() returns (total: nat)
      ensures total == WalState.TotalBytes(segments)
    {
      total := 0;
      for i := 0 to |segments|
        invariant total == WalState.TotalBytes(segments[..i])
      {
        TakeTake(segments, i, i + 1);
        total := total + segments[i].size;
      }
      TakeAll(segments);
    }

    /** Append's admission check: whether a frame of `len` bytes is refused for want of room. */
    method BufferFull(len: nat) returns (full: bool)
      ensures full <==> maxBytes > 0 && WalState.TotalBytes(segments) + len > maxBytes
    {
      full := false;
      if maxBytes > 0 {
        var total := TotalBytes();
        full := total + len > maxBytes;
      }
    }

    /** A snapshot of every unresolved entry: each id once, each with its pending providers, each once. */
    method Pending() returns (entries: seq<PendingEntry>)
      requires Keyed(index)
      ensures SnapshotOf(entries, index.Keys, index)
    {
      entries := [];
      var todo := index.Keys;
      while todo != {}
        invariant todo <= index.Keys && SnapshotOf(entries, index.Keys - todo, index)
        decreases todo
      {
        var id :| id in todo;
        var providers: seq<string> := [];
        var left := index[id].pending;
        while left != {}
          invariant Lists(providers, index[id].pending - left) && left <= index[id].pending
          decreases left
        {
          var p :| p in left;
          ListsOneMore(providers, index[id].pending - left, p);
          providers, left := providers + [p], left - {p};
          assert index[id].pending - left == index[id].pending - (left + {p}) + {p};
        }
        assert index[id].pending - {} == index[id].pending;
        ListsOneMore(Ids(entries), index.Keys - todo, id);
        assert Ids(entries + [PendingEntry(index[id].event, providers)]) == Ids(entries) + [id];
        assert index.Keys - (todo - {id}) == index.Keys - todo + {id};
        entries, todo := entries + [PendingEntry(index[id].event, providers)], todo - {id};
      }
      assert index.Keys - {} == index.Keys;
    }
  }
}
