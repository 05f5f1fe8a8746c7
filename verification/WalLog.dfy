/** The meaning of a write-ahead log: a fold of its records, oldest first, into the set of
    unresolved entries. This is the reference every in-memory structure is compared with. */
module WalLog {
  import opened Types

  /** The two record types a segment file can hold. */
  datatype Rec =
    | EventRec(event: Event, providers: seq<string>)
    | AckRec(eventId: string, provider: string, disposition: Disposition)

  /** One unresolved entry; `segSeq` is the segment its event record was written to. */
  datatype Entry = Entry(event: Event, pending: set<string>, segSeq: nat)

  type Index = map<string, Entry>

  /** A record together with the sequence number of the segment that holds it. */
  datatype Located = Located(rec: Rec, seg: nat)

  /** What one record does to the set of unresolved entries. */
  function ApplyRec(ix: Index, r: Rec, seg: nat): Index {
    match r
    case EventRec(e, ps) => ix[e.id := Entry(e, Members(ps), seg)]
    case AckRec(id, p, _) =>
      if id !in ix then ix
      else
        var left := ix[id].pending - {p};
        if left == {} then ix - {id} else ix[id := ix[id].(pending := left)]
  }

  function Replay(log: seq<Located>): Index {
    if log == [] then map[]
    else
      var n := |log| - 1;
      ApplyRec(Replay(log[..n]), log[n].rec, log[n].seg)
  }

  lemma ReplayAppend(log: seq<Located>, l: Located)
    ensures Replay(log + [l]) == ApplyRec(Replay(log), l.rec, l.seg)
  {
    assert (log + [l])[..|log|] == log;
  }

  /** Provider p still owes an answer for the event with this id. */
  predicate Owes(ix: Index, id: string, p: string) {
    id in ix && p in ix[id].pending
  }

  // ---- What the fold computes, without the fold ------------------------------------------

  predicate IsEventOf(r: Rec, id: string) {
    r.EventRec? && r.event.id == id
  }

  predicate IsAckOf(r: Rec, id: string, p: string) {
    r.AckRec? && r.eventId == id && r.provider == p
  }

  /** Position k holds the last event record of `id`. */
  ghost predicate LastEventAt(log: seq<Located>, id: string, k: nat) {
    && k < |log| && IsEventOf(log[k].rec, id)
    && forall j :: k < j < |log| ==> !IsEventOf(log[j].rec, id)
  }

  /** No ack of (id, p) at or after position k. */
  ghost predicate Unacked(log: seq<Located>, id: string, p: string, k: nat) {
    forall j :: k <= j < |log| ==> !IsAckOf(log[j].rec, id, p)
  }

  /** Every entry of a replayed index is the last event record of its id, and its pending set
      is exactly that record's providers with no ack after the record. */
  lemma {:induction false} ReplayEntry(log: seq<Located>, id: string) returns (k: nat)
    requires id in Replay(log)
    ensures LastEventAt(log, id, k)
    ensures Replay(log)[id].event == log[k].rec.event && Replay(log)[id].segSeq == log[k].seg
    ensures forall p :: p in Replay(log)[id].pending <==>
                        p in log[k].rec.providers && Unacked(log, id, p, k)
  {
    var n := |log| - 1;
    if IsEventOf(log[n].rec, id) {
      k := n;
    } else {
      k := ReplayEntry(log[..n], id);
      forall p ensures Unacked(log, id, p, k) <==>
                       Unacked(log[..n], id, p, k) && !IsAckOf(log[n].rec, id, p) {
        assert Unacked(log[..n], id, p, k) ==> forall j :: k <= j < n ==> log[..n][j] == log[j];
        assert Unacked(log, id, p, k) ==> forall j :: k <= j < n ==> log[..n][j] == log[j];
      }
    }
  }

  /** Exactly when a pair is pending after replay: the last event record of the id names the
      provider and no later ack answers it. */
  lemma {:induction false} ReplayOwes(log: seq<Located>, id: string, p: string)
    ensures Owes(Replay(log), id, p) <==>
            exists k: nat :: LastEventAt(log, id, k) && p in log[k].rec.providers && Unacked(log, id, p, k)
  {
    if id in Replay(log) {
      var k := ReplayEntry(log, id);
      forall k' | LastEventAt(log, id, k') ensures k' == k { }
    }
    if k: nat :| LastEventAt(log, id, k) && p in log[k].rec.providers && Unacked(log, id, p, k) {
      ReplayKeeps(log, id, p, k);
    }
  }

  /** The half of ReplayOwes that must build the entry up from its event record. */
  lemma {:induction false} ReplayKeeps(log: seq<Located>, id: string, p: string, k: nat)
    requires LastEventAt(log, id, k) && p in log[k].rec.providers && Unacked(log, id, p, k)
    ensures Owes(Replay(log), id, p)
  {
    var n := |log| - 1;
    if k < n {
      assert LastEventAt(log[..n], id, k);
      assert Unacked(log[..n], id, p, k);
      ReplayKeeps(log[..n], id, p, k);
      assert !IsAckOf(log[n].rec, id, p) && !IsEventOf(log[n].rec, id);
      var before := Replay(log[..n]);
      assert log[n].rec.AckRec? ==> p in before[id].pending - {log[n].rec.provider} || log[n].rec.eventId != id;
    }
  }

  /** Every entry is filed under its own event's id. */
  ghost predicate Keyed(ix: Index) {
    forall id :: id in ix ==> ix[id].event.id == id
  }

  lemma {:induction false} ReplayKeyed(log: seq<Located>)
    ensures Keyed(Replay(log))
  {
    if log == [] {
    } else {
      ReplayKeyed(log[..|log| - 1]);
    }
  }

  // ---- Dropping the front of a log --------------------------------------------------------

  /** Entries whose event record sits outside the segments `gone`. */
  function Outside(ix: Index, gone: set<nat>): Index {
    map id | id in ix && ix[id].segSeq !in gone :: ix[id]
  }

  function SegsOf(log: seq<Located>): set<nat> {
    set l | l in log :: l.seg
  }

  /** Replaying a suffix gives exactly the entries of the full replay that were written in it,
      whatever records the dropped front held. */
  lemma {:induction false} ReplaySuffix(front: seq<Located>, rest: seq<Located>)
    requires SegsOf(front) !! SegsOf(rest)
    ensures Replay(rest) == Outside(Replay(front + rest), SegsOf(front))
  {
    if rest == [] {
      assert front + rest == front;
      forall id | id in Replay(front) ensures Replay(front)[id].segSeq in SegsOf(front) {
        var k := ReplayEntry(front, id);
        assert front[k] in front;
      }
    } else {
      var n := |rest| - 1;
      assert rest == rest[..n] + [rest[n]];
      assert front + rest == (front + rest[..n]) + [rest[n]];
      assert rest[n] in rest;
      assert SegsOf(rest[..n]) <= SegsOf(rest);
      ReplaySuffix(front, rest[..n]);
      ReplayAppend(front + rest[..n], rest[n]);
      OutsideApply(Replay(front + rest[..n]), rest[n].rec, rest[n].seg, SegsOf(front));
    }
  }

  /** Forgetting entries commutes with applying a record written elsewhere. */
  lemma OutsideApply(ix: Index, r: Rec, seg: nat, gone: set<nat>)
    requires seg !in gone
    ensures Outside(ApplyRec(ix, r, seg), gone) == ApplyRec(Outside(ix, gone), r, seg)
  {
  }

  /** Deleting the front of a log keeps its meaning exactly when no unresolved entry's event
      record lives there. */
  lemma DroppingFrontKeepsMeaning(front: seq<Located>, rest: seq<Located>)
    requires SegsOf(front) !! SegsOf(rest)
    ensures Replay(rest) == Replay(front + rest) <==>
            forall id :: id in Replay(front + rest) ==> Replay(front + rest)[id].segSeq !in SegsOf(front)
  {
    ReplaySuffix(front, rest);
    var all := Replay(front + rest);
    if forall id :: id in all ==> all[id].segSeq !in SegsOf(front) {
      assert Outside(all, SegsOf(front)) == all;
    } else {
      var id :| id in all && all[id].segSeq in SegsOf(front);
      assert id !in Replay(rest);
    }
  }

  /** The in-order rule matters: dropping a middle segment with no live event record can lose an
      ack whose event record is older, bringing a resolved event back. The layout is
      seg 0: [A, B], seg 1: [C, ack A], seg 2: [D, ack C]. */
  lemma DroppingMiddleResurrects(a: Event, b: Event, c: Event, d: Event)
    requires a.id != b.id && a.id != c.id && a.id != d.id && b.id != c.id && b.id != d.id && c.id != d.id
    ensures
      var s0 := [Located(EventRec(a, ["orb"]), 0), Located(EventRec(b, ["orb"]), 0)];
      var s1 := [Located(EventRec(c, ["orb"]), 1), Located(AckRec(a.id, "orb", Ok), 1)];
      var s2 := [Located(EventRec(d, ["orb"]), 2), Located(AckRec(c.id, "orb", Ok), 2)];
      && (forall id :: id in Replay(s0 + s1 + s2) ==> Replay(s0 + s1 + s2)[id].segSeq != 1)
      && !Owes(Replay(s0 + s1 + s2), a.id, "orb")
      && Owes(Replay(s0 + s2), a.id, "orb")
  {
    var s0 := [Located(EventRec(a, ["orb"]), 0), Located(EventRec(b, ["orb"]), 0)];
    var s1 := [Located(EventRec(c, ["orb"]), 1), Located(AckRec(a.id, "orb", Ok), 1)];
    var s2 := [Located(EventRec(d, ["orb"]), 2), Located(AckRec(c.id, "orb", Ok), 2)];
    var all := s0 + s1 + s2;
    forall id | id in Replay(all) ensures Replay(all)[id].segSeq != 1 {
      var k := ReplayEntry(all, id);
      if k == 2 {
        EntryPendingNonempty(all, id);
        assert false;
      }
    }
    ReplayOwes(all, a.id, "orb");
    assert IsAckOf(all[3].rec, a.id, "orb");
    forall k | LastEventAt(all, a.id, k) ensures k == 0 { assert IsEventOf(all[0].rec, a.id); }
    ReplayKeeps(s0 + s2, a.id, "orb", 0);
  }

  /** An entry that was given at least one provider still has one pending. */
  lemma {:induction false} EntryPendingNonempty(log: seq<Located>, id: string)
    requires forall l :: l in log && l.rec.EventRec? ==> l.rec.providers != []
    requires id in Replay(log)
    ensures Replay(log)[id].pending != {}
  {
    var n := |log| - 1;
    assert log[n] in log;
    if IsEventOf(log[n].rec, id) {
      assert log[n].rec.providers[0] in Replay(log)[id].pending;
    } else {
      assert forall l :: l in log[..n] ==> l in log;
      EntryPendingNonempty(log[..n], id);
    }
  }
}
