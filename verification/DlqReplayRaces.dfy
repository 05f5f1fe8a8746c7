/** Replaying dead-letters while the rest of the daemon goes on: between listing the records and removing
    them other batches are committed, events are dead-lettered again, and other replays remove records.
    Exactly when a replayed event survives this. */
module DlqReplayRaces {
  import opened Types
  import opened WalLog
  import opened WalState
  import opened WalInvariant
  import opened WalDurability
  import opened WalGroupCommit
  import opened Seqs
  import D = DlqState
  import DI = DlqInvariant
  import opened Sink
  import opened DlqReplay

  /** What can happen between the listing and the removal, the replay's own appends among it. */
  datatype Act =
    | CommitAct(io: AppendIo)
    | PutAct(provider: string, event: Event, reason: string, permanent: bool, putIo: D.PutIo)
    | RemoveAct(provider: string, ids: seq<string>, removeIo: D.RemoveIo)

  function Do(w: World, a: Act): World {
    match a
    case CommitAct(io) => w.(log := Appended(w.log, io))
    case PutAct(p, e, reason, permanent, io) => w.(dlq := D.Put(w.dlq, p, e, reason, permanent, io).store)
    case RemoveAct(p, ids, io) => w.(dlq := D.Remove(w.dlq, p, ids, io).store)
  }

  function After(w: World, acts: seq<Act>): World {
    if acts == [] then w else Do(After(w, acts[..|acts| - 1]), acts[|acts| - 1])
  }

  /** Every request of every batch has its I/O outcomes. */
  predicate Sound(acts: seq<Act>) {
    forall i :: 0 <= i < |acts| && acts[i].CommitAct? ==> |acts[i].io.batch| == |acts[i].io.ios|
  }

  /** Nothing fails in any of the commits; anything may in the puts and removals. */
  predicate Faultless(acts: seq<Act>) {
    forall i :: 0 <= i < |acts| && acts[i].CommitAct? ==>
      acts[i].io.ios == Healthy(|acts[i].io.batch|) && acts[i].io.syncOk
  }

  lemma FaultlessIsSound(acts: seq<Act>)
    requires Faultless(acts)
    ensures Sound(acts)
  {
  }

  lemma {:induction false} AfterInv(w: World, acts: seq<Act>)
    requires Inv(w.log) && Sound(acts)
    ensures Inv(After(w, acts).log)
  {
    if acts == [] {
    } else {
      var n := |acts| - 1;
      AfterInv(w, acts[..n]);
      var log, a := After(w, acts[..n]).log, acts[n];
      if a.CommitAct? {
        CommitInv(log, a.io.batch, a.io.ios, a.io.syncOk);
      }
    }
  }

  /** The records submitted for writing, in order. */
  function Records(acts: seq<Act>): seq<Rec> {
    if acts == [] then []
    else
      var n := |acts| - 1;
      Records(acts[..n]) + (if acts[n].CommitAct? then RecsOf(acts[n].io.batch) else [])
  }

  function RecsOf(batch: seq<Frame>): seq<Rec> {
    seq(|batch|, i requires 0 <= i < |batch| => batch[i].rec)
  }

  predicate Names(r: Rec, id: string, p: string) {
    IsEventOf(r, id) && p in r.providers
  }

  /** The last of the records that append the id for the provider is followed by none that answers the
      pair, or supersedes the append without naming the provider. */
  ghost predicate StillOwed(recs: seq<Rec>, id: string, p: string) {
    exists m :: 0 <= m < |recs| && OwedFrom(recs, m, id, p)
  }

  ghost predicate OwedFrom(recs: seq<Rec>, m: nat, id: string, p: string)
    requires m < |recs|
  {
    Names(recs[m], id, p) && AllKeptAfter(recs, m + 1, id, p)
  }

  ghost predicate AllKeptAfter(recs: seq<Rec>, from: nat, id: string, p: string) {
    forall j :: from <= j < |recs| ==> Keeps(recs[j], id, p)
  }

  // ---- With faults, one way ---------------------------------------------------------------

  /** The act leaves a held pair held. */
  ghost predicate ActKeeps(a: Act, id: string, p: string) {
    a.CommitAct? ==> KeptFrom(a.io.batch, id, p, 0)
  }

  lemma ActKeepsHeld(w: World, a: Act, id: string, p: string)
    requires Inv(w.log) && Sound([a]) && Holds(w.log, id, p) && ActKeeps(a, id, p)
    ensures Holds(Do(w, a).log, id, p)
  {
    assert a == [a][0];
    hide Commit, Held, Inv, D.Put, D.Remove;
    if a.CommitAct? {
      CommitKeepsHeld(w.log, a.io.batch, a.io.ios, a.io.syncOk, id, p);
    }
  }

  lemma {:induction false} StaysHeldAfter(w: World, acts: seq<Act>, from: nat, id: string, p: string)
    requires Inv(w.log) && Sound(acts) && from <= |acts| && Holds(After(w, acts[..from]).log, id, p)
    requires forall i :: from <= i < |acts| ==> ActKeeps(acts[i], id, p)
    ensures Holds(After(w, acts).log, id, p)
  {
    hide Inv, Holds, Do, ActKeeps;
    var n := |acts| - 1;
    if from == |acts| {
      TakeAll(acts);
    } else {
      TakeTake(acts, from, n);
      StaysHeldAfter(w, acts[..n], from, id, p);
      AfterInv(w, acts[..n]);
      assert Sound([acts[n]]);
      ActKeepsHeld(After(w, acts[..n]), acts[n], id, p);
    }
  }

  /** Request r of the a-th act is an append of the pair that was answered nil. */
  ghost predicate AnsweredAt(w: World, acts: seq<Act>, a: nat, r: nat, id: string, p: string)
    requires a < |acts|
  {
    var log := After(w, acts[..a]).log;
    && acts[a].CommitAct? && Commits(log, acts[a].io)
    && AppendedAt(log, acts[a].io.batch, acts[a].io.ios, acts[a].io.syncOk, id, p, r)
  }

  /** No record after request r of the a-th act touches the pair. */
  ghost predicate UntouchedAfter(acts: seq<Act>, a: nat, r: nat, id: string, p: string)
    requires a < |acts| && acts[a].CommitAct?
  {
    KeptFrom(acts[a].io.batch, id, p, r + 1) && forall i :: a < i < |acts| ==> ActKeeps(acts[i], id, p)
  }

  /** Whatever fails: an append that was answered nil holds the pair until a later record touches it. */
  lemma AnsweredStaysHeld(w: World, acts: seq<Act>, a: nat, r: nat, id: string, p: string)
    requires Inv(w.log) && Sound(acts) && a < |acts|
    requires AnsweredAt(w, acts, a, r, id, p) && UntouchedAfter(acts, a, r, id, p)
    ensures Holds(After(w, acts).log, id, p)
  {
    AfterInv(w, acts[..a]);
    AfterNext(w, acts, a);
    assert acts[a].CommitAct? && KeptFrom(acts[a].io.batch, id, p, r + 1);
    assert forall i :: a + 1 <= i < |acts| ==> ActKeeps(acts[i], id, p);
    hide Inv, Holds, After, Do, ActKeeps, KeptFrom, AppendedAt;
    AppendHoldsPair(After(w, acts[..a]).log, acts[a].io, r, id, p);
    StaysHeldAfter(w, acts, a + 1, id, p);
  }

  lemma AfterNext(w: World, acts: seq<Act>, n: nat)
    requires n < |acts|
    ensures After(w, acts[..n + 1]) == Do(After(w, acts[..n]), acts[n])
    ensures acts[n].CommitAct? ==> After(w, acts[..n + 1]).log == Appended(After(w, acts[..n]).log, acts[n].io)
  {
    TakeTake(acts, n, n + 1);
    hide Appended;
  }

  lemma AppendHoldsPair(log: State, io: AppendIo, r: nat, id: string, p: string)
    requires Inv(log) && Commits(log, io) && AppendedAt(log, io.batch, io.ios, io.syncOk, id, p, r)
    requires KeptFrom(io.batch, id, p, r + 1)
    ensures Holds(Appended(log, io), id, p)
  {
    hide Commit, Inv, Held, Keeps;
    NilReplyHolds(log, io.batch, io.ios, io.syncOk, r, p);
  }

  // ---- Without faults, exactly ------------------------------------------------------------

  function OwesStep(owes: bool, r: Rec, id: string, p: string): bool {
    if IsEventOf(r, id) then p in r.providers else owes && !IsAckOf(r, id, p)
  }

  function OwesFold(owes: bool, recs: seq<Rec>, id: string, p: string): bool {
    if recs == [] then owes
    else OwesStep(OwesFold(owes, recs[..|recs| - 1], id, p), recs[|recs| - 1], id, p)
  }

  lemma OwesNext(ix: Index, r: Rec, seg: nat, id: string, p: string)
    ensures Owes(ApplyRec(ix, r, seg), id, p) == OwesStep(Owes(ix, id, p), r, id, p)
  {
    if r.AckRec? && r.eventId == id && id in ix {
      assert p in ix[id].pending - {r.provider} <==> p in ix[id].pending && p != r.provider;
    }
  }

  lemma {:induction false} OwesFoldConcat(owes: bool, a: seq<Rec>, b: seq<Rec>, id: string, p: string)
    ensures OwesFold(owes, a + b, id, p) == OwesFold(OwesFold(owes, a, id, p), b, id, p)
  {
    if b == [] {
      assert a + b == a;
    } else {
      var n := |b| - 1;
      assert (a + b)[..|a + b| - 1] == a + b[..n];
      OwesFoldConcat(owes, a, b[..n], id, p);
    }
  }

  lemma {:induction false} CoreOwes(s: State, batch: seq<Frame>, id: string, p: string)
    requires Good(s)
    ensures Owes(Core(s, batch).index, id, p) == OwesFold(Owes(s.index, id, p), RecsOf(batch), id, p)
  {
    if batch == [] {
    } else {
      var n := |batch| - 1;
      CoreOwes(s, batch[..n], id, p);
      assert RecsOf(batch)[..n] == RecsOf(batch[..n]);
      var c := Core(s, batch[..n]);
      hide Good, Serial1, Write1, ApplyRec, Owes, FilesOf;
      Serial1Files(c, batch[n]);
      OwesNext(c.index, batch[n].rec, Active(Write1(c, batch[n])).seqNo, id, p);
    }
  }

  lemma GroupOwes(s: State, batch: seq<Frame>, id: string, p: string)
    requires Good(s)
    ensures Good(Group(s, batch))
    ensures Owes(Group(s, batch).index, id, p) == OwesFold(Owes(s.index, id, p), RecsOf(batch), id, p)
  {
    GroupGood(s, batch);
    GroupIsCore(s, batch);
    CoreOwes(s, batch, id, p);
    GcInv(FinalSync(Core(s, batch), true));
  }

  lemma {:induction false} AfterOwes(w: World, acts: seq<Act>, id: string, p: string)
    requires Good(w.log) && Faultless(acts)
    ensures Good(After(w, acts).log)
    ensures Owes(After(w, acts).log.index, id, p) == OwesFold(Owes(w.log.index, id, p), Records(acts), id, p)
  {
    if acts == [] {
    } else {
      var n := |acts| - 1;
      AfterOwes(w, acts[..n], id, p);
      var log, a := After(w, acts[..n]).log, acts[n];
      hide Inv, Commit, OwesFold, Owes, RecsOf;
      if a.CommitAct? {
        GroupOwes(log, a.io.batch, id, p);
        OwesFoldConcat(Owes(w.log.index, id, p), Records(acts[..n]), RecsOf(a.io.batch), id, p);
        assert Appended(log, a.io) == Group(log, a.io.batch);
      } else {
        assert Records(acts) == Records(acts[..n]);
      }
    }
  }

  /** The fold leaves the pair owed exactly when some append of it is left alone, or it was owed before
      and no record touches it. */
  lemma {:induction false} OwesFoldIs(owes: bool, recs: seq<Rec>, id: string, p: string)
    ensures OwesFold(owes, recs, id, p) <==> StillOwed(recs, id, p) || (owes && AllKeptAfter(recs, 0, id, p))
  {
    if recs == [] {
    } else {
      var n := |recs| - 1;
      OwesFoldIs(owes, recs[..n], id, p);
      OwedNext(recs, id, p);
      KeptNext(recs, 0, id, p);
    }
  }

  lemma KeptNext(recs: seq<Rec>, from: nat, id: string, p: string)
    requires recs != [] && from < |recs|
    ensures AllKeptAfter(recs, from, id, p) <==>
            AllKeptAfter(recs[..|recs| - 1], from, id, p) && Keeps(recs[|recs| - 1], id, p)
  {
    var n := |recs| - 1;
    assert forall j :: 0 <= j < n ==> recs[..n][j] == recs[j];
  }

  lemma OwedNext(recs: seq<Rec>, id: string, p: string)
    requires recs != []
    ensures StillOwed(recs, id, p) <==>
            var n := |recs| - 1;
            Names(recs[n], id, p) || (StillOwed(recs[..n], id, p) && Keeps(recs[n], id, p))
  {
    var n := |recs| - 1;
    if Names(recs[n], id, p) {
      assert OwedFrom(recs, n, id, p);
    }
    forall m | 0 <= m < n
      ensures OwedFrom(recs, m, id, p) <==> OwedFrom(recs[..n], m, id, p) && Keeps(recs[n], id, p)
    {
      KeptNext(recs, m + 1, id, p);
    }
    if StillOwed(recs, id, p) && !Names(recs[n], id, p) {
      var m :| 0 <= m < |recs| && OwedFrom(recs, m, id, p);
      assert OwedFrom(recs[..n], m, id, p);
    }
    if StillOwed(recs[..n], id, p) && Keeps(recs[n], id, p) {
      var m :| 0 <= m < n && OwedFrom(recs[..n], m, id, p);
      assert OwedFrom(recs, m, id, p);
    }
  }

  /** If an append of the pair is left alone the log holds it in the end. */
  lemma {:induction false} StillOwedHolds(w: World, acts: seq<Act>, id: string, p: string)
    requires Good(w.log) && Faultless(acts) && StillOwed(Records(acts), id, p)
    ensures Holds(After(w, acts).log, id, p)
  {
    var n := |acts| - 1;
    var a := acts[n];
    if !a.CommitAct? {
      assert Records(acts) == Records(acts[..n]);
      StillOwedHolds(w, acts[..n], id, p);
    } else {
      var before, recs := Records(acts[..n]), RecsOf(a.io.batch);
      var m :| 0 <= m < |Records(acts)| && OwedFrom(Records(acts), m, id, p);
      AfterOwes(w, acts[..n], id, p);
      var log := After(w, acts[..n]).log;
      if m >= |before| {
        LastActHolds(log, a.io, m - |before|, before, id, p);
      } else {
        OwedSplit(before, recs, m, id, p);
        StillOwedHolds(w, acts[..n], id, p);
        BatchKept(a.io.batch, id, p);
        hide Commit, Held, Inv;
        CommitKeepsHeld(log, a.io.batch, a.io.ios, a.io.syncOk, id, p);
      }
    }
  }

  lemma LastActHolds(log: State, io: AppendIo, r: nat, before: seq<Rec>, id: string, p: string)
    requires Good(log) && io.ios == Healthy(|io.batch|) && io.syncOk && r < |io.batch|
    requires OwedFrom(before + RecsOf(io.batch), |before| + r, id, p)
    ensures Holds(Appended(log, io), id, p)
  {
    GroupIsCore(log, io.batch);
    var recs := before + RecsOf(io.batch);
    forall j | r <= j < |io.batch| ensures recs[|before| + j] == io.batch[j].rec { }
    hide Commit, Held, Core, Gc;
    forall j | r < j < |io.batch| ensures Keeps(io.batch[j].rec, id, p) {
      assert Keeps(recs[|before| + j], id, p);
    }
    NilReplyHolds(log, io.batch, io.ios, io.syncOk, r, p);
  }

  lemma OwedSplit(a: seq<Rec>, b: seq<Rec>, m: nat, id: string, p: string)
    requires m < |a| && OwedFrom(a + b, m, id, p)
    ensures OwedFrom(a, m, id, p) && AllKeptAfter(b, 0, id, p)
  {
    assert forall j :: 0 <= j < |a| ==> (a + b)[j] == a[j];
    assert forall j :: 0 <= j < |b| ==> b[j] == (a + b)[|a| + j];
  }

  lemma BatchKept(batch: seq<Frame>, id: string, p: string)
    requires AllKeptAfter(RecsOf(batch), 0, id, p)
    ensures KeptFrom(batch, id, p, 0)
  {
    forall j | 0 <= j < |batch| ensures Keeps(batch[j].rec, id, p) {
      assert RecsOf(batch)[j] == batch[j].rec;
    }
  }

  /** In the end the log holds a pair that was appended meanwhile exactly when it is still owed. */
  lemma HeldExactly(w: World, acts: seq<Act>, id: string, p: string, m: nat)
    requires Good(w.log) && Faultless(acts) && m < |Records(acts)| && Names(Records(acts)[m], id, p)
    ensures Holds(After(w, acts).log, id, p) <==> StillOwed(Records(acts), id, p)
  {
    AfterOwes(w, acts, id, p);
    OwesFoldIs(Owes(w.log.index, id, p), Records(acts), id, p);
    if AllKeptAfter(Records(acts), 0, id, p) {
      assert OwedFrom(Records(acts), m, id, p);
    }
    if StillOwed(Records(acts), id, p) {
      StillOwedHolds(w, acts, id, p);
    }
  }

  // ---- The replay -------------------------------------------------------------------------

  /** Act own[k] is the append of the k-th listed record, for the one provider. */
  ghost predicate Appends(recs: seq<D.Record>, provider: string, acts: seq<Act>, own: seq<nat>) {
    && |own| == |recs|
    && (forall j, k :: 0 <= j < k < |own| ==> own[j] < own[k])
    && forall k :: 0 <= k < |own| ==>
         own[k] < |acts| && acts[own[k]].CommitAct? && Fits(acts[own[k]].io, recs[k].event, [provider])
  }

  /** Which appends are answered nil. */
  function Answers(w: World, acts: seq<Act>, own: seq<nat>): seq<bool>
    requires forall k :: 0 <= k < |own| ==> own[k] < |acts| && acts[own[k]].CommitAct?
  {
    seq(|own|, k requires 0 <= k < |own| => AppendOk(After(w, acts[..own[k]]).log, acts[own[k]].io))
  }

  /** The ids reported as replayed. */
  ghost function Replayed(w: World, recs: seq<D.Record>, provider: string, acts: seq<Act>, own: seq<nat>): seq<string>
    requires Appends(recs, provider, acts, own)
  {
    Pick(recs, Answers(w, acts, own), |recs|, true)
  }

  /** After the removal of the replayed ids, however that goes. */
  ghost function End(
    w: World, recs: seq<D.Record>, provider: string, acts: seq<Act>, own: seq<nat>, io: D.RemoveIo): World
    requires Appends(recs, provider, acts, own)
  {
    var last := After(w, acts);
    last.(dlq := D.Remove(last.dlq, provider, Replayed(w, recs, provider, acts, own), io).store)
  }

  lemma ReplayedIs(w: World, recs: seq<D.Record>, provider: string, acts: seq<Act>, own: seq<nat>, id: string) returns (k: nat)
    requires Appends(recs, provider, acts, own) && id in Replayed(w, recs, provider, acts, own)
    ensures k < |recs| && recs[k].event.id == id && acts[own[k]].io.at.Some?
    ensures AnsweredAt(w, acts, own[k], acts[own[k]].io.at.value, id, provider)
  {
    hide Commit, After;
    PickIs(recs, Answers(w, acts, own), |recs|, true, id);
    k :| 0 <= k < |recs| && recs[k].event.id == id && Answers(w, acts, own)[k];
    assert Fits(acts[own[k]].io, recs[k].event, [provider]);
  }

  /** The removal fails in such a way that a record of the id stays on file. */
  ghost predicate RemovalSpares(
    w: World, recs: seq<D.Record>, provider: string, acts: seq<Act>, own: seq<nat>, io: D.RemoveIo, id: string)
    requires Appends(recs, provider, acts, own)
  {
    DI.RemoveSpares(After(w, acts).dlq, provider, Replayed(w, recs, provider, acts, own), io, id)
  }

  /** Whatever has happened, a replayed event is safe in the end exactly when the log holds it, unless
      the removal has failed and left a record. Dead-lettering it again in between does not count. */
  lemma SafeIffHeld(
    w: World, recs: seq<D.Record>, provider: string, acts: seq<Act>, own: seq<nat>, io: D.RemoveIo, id: string)
    requires Appends(recs, provider, acts, own) && id in Replayed(w, recs, provider, acts, own)
    ensures Safe(End(w, recs, provider, acts, own, io), provider, id) <==>
            Holds(After(w, acts).log, id, provider) || RemovalSpares(w, recs, provider, acts, own, io, id)
    ensures D.Remove(After(w, acts).dlq, provider, Replayed(w, recs, provider, acts, own), io).ok ==>
            !RemovalSpares(w, recs, provider, acts, own, io, id)
  {
    hide D.Remove, DI.Parked, DI.RemoveSpares, Replayed;
    DI.RemoveParksExactly(After(w, acts).dlq, provider, Replayed(w, recs, provider, acts, own), io, id);
  }

  lemma {:induction false} RecordAt(acts: seq<Act>, a: nat, r: nat) returns (m: nat)
    requires a < |acts| && acts[a].CommitAct? && r < |acts[a].io.batch|
    ensures m < |Records(acts)| && Records(acts)[m] == acts[a].io.batch[r].rec
  {
    var n := |acts| - 1;
    if a == n {
      m := |Records(acts[..n])| + r;
    } else {
      m := RecordAt(acts[..n], a, r);
    }
  }

  /** Exactly when a replayed event survives the rest of the daemon, if no commit meanwhile has faults:
      no record after the last append of it for the provider answers the pair, or supersedes that append
      without naming the provider; or the removal has failed and left a record. Once the removal goes
      through, puts of the same event or of others, with any I/O, make no difference. */
  lemma ReplaySafeExactly(
    w: World, recs: seq<D.Record>, provider: string, acts: seq<Act>, own: seq<nat>, io: D.RemoveIo, id: string)
    requires Good(w.log) && Faultless(acts) && Appends(recs, provider, acts, own)
    requires id in Replayed(w, recs, provider, acts, own)
    ensures Safe(End(w, recs, provider, acts, own, io), provider, id) <==>
            StillOwed(Records(acts), id, provider) || RemovalSpares(w, recs, provider, acts, own, io, id)
    ensures D.Remove(After(w, acts).dlq, provider, Replayed(w, recs, provider, acts, own), io).ok ==>
            !RemovalSpares(w, recs, provider, acts, own, io, id)
  {
    SafeIffHeld(w, recs, provider, acts, own, io, id);
    hide End, Replayed, StillOwed, Faultless, After, RemovalSpares, D.Remove;
    var k := ReplayedIs(w, recs, provider, acts, own, id);
    var m := RecordAt(acts, own[k], acts[own[k]].io.at.value);
    HeldExactly(w, acts, id, provider, m);
  }

  /** With any faults, in the commits and in the removal, a replayed event is safe if no record after its
      last answered append touches the pair. */
  lemma ReplaySafeUnderFaults(
    w: World, recs: seq<D.Record>, provider: string, acts: seq<Act>, own: seq<nat>, io: D.RemoveIo, k: nat)
    requires Inv(w.log) && Sound(acts) && Appends(recs, provider, acts, own)
    requires k < |recs| && Answers(w, acts, own)[k]
    requires UntouchedAfter(acts, own[k], acts[own[k]].io.at.value, recs[k].event.id, provider)
    ensures Safe(End(w, recs, provider, acts, own, io), provider, recs[k].event.id)
  {
    var a := own[k];
    hide After, Commit, Inv;
    assert Fits(acts[a].io, recs[k].event, [provider]);
    AnsweredStaysHeld(w, acts, a, acts[a].io.at.value, recs[k].event.id, provider);
  }

  /** The act takes no record of the pair away without leaving one: a put of it gets its line on file or
      spares an earlier record, and no other removal names it. */
  ghost predicate LeavesParked(s: D.Store, a: Act, id: string, p: string) {
    match a
    case CommitAct(_) => true
    case PutAct(q, e, _, permanent, io) =>
      DI.NoClash(q, p) &&
      (q == p && e.id == id ==> DI.PutWrites(s, p, id, permanent, io) || DI.PutSparesRecord(s, p, id, permanent, io))
    case RemoveAct(q, ids, _) => DI.NoClash(q, p) && (q == p ==> id !in ids)
  }

  lemma ActLeavesParked(w: World, a: Act, id: string, p: string)
    requires DI.Parked(w.dlq, p, id) && LeavesParked(w.dlq, a, id, p)
    ensures DI.Parked(Do(w, a).dlq, p, id)
  {
    hide D.Put, D.Remove, DI.Parked, Appended, DI.PutWrites, DI.PutSparesRecord;
    match a
    case CommitAct(_) =>
    case PutAct(q, e, reason, permanent, io) =>
      if q == p && e.id == id {
        DI.PutParksExactly(w.dlq, q, e, reason, permanent, io);
      } else {
        DI.PutKeepsParked(w.dlq, q, e, reason, permanent, io, p, id);
      }
    case RemoveAct(q, ids, io) => DI.RemoveKeepsParked(w.dlq, q, ids, io, p, id);
  }

  lemma {:induction false} StaysParked(w: World, acts: seq<Act>, id: string, p: string)
    requires DI.Parked(w.dlq, p, id)
    requires forall i :: 0 <= i < |acts| ==> LeavesParked(After(w, acts[..i]).dlq, acts[i], id, p)
    ensures DI.Parked(After(w, acts).dlq, p, id)
  {
    if acts == [] {
    } else {
      var n := |acts| - 1;
      hide DI.Parked, LeavesParked, Do;
      forall i | 0 <= i < n ensures LeavesParked(After(w, acts[..n][..i]).dlq, acts[..n][i], id, p) {
        TakeTake(acts, i, n);
      }
      StaysParked(w, acts[..n], id, p);
      ActLeavesParked(After(w, acts[..n]), acts[n], id, p);
    }
  }

  /** A listed event that is not replayed, because each of its appends failed, stays parked. */
  lemma UnreplayedStaysParked(
    w: World, recs: seq<D.Record>, provider: string, acts: seq<Act>, own: seq<nat>, io: D.RemoveIo, id: string)
    requires Appends(recs, provider, acts, own) && id !in Replayed(w, recs, provider, acts, own)
    requires DI.Parked(w.dlq, provider, id)
    requires forall i :: 0 <= i < |acts| ==> LeavesParked(After(w, acts[..i]).dlq, acts[i], id, provider)
    ensures Safe(End(w, recs, provider, acts, own, io), provider, id)
  {
    hide D.Remove, DI.Parked, LeavesParked, Replayed;
    StaysParked(w, acts, id, provider);
    DI.RemoveKeepsParked(After(w, acts).dlq, provider, Replayed(w, recs, provider, acts, own), io, provider, id);
  }

  /** If nothing else is committed meanwhile this is the log and the answers of the handler's own loop. */
  lemma {:induction false} AppendsAlone(w: World, ios: seq<AppendIo>, n: nat)
    requires n <= |ios|
    ensures After(w, OwnActs(ios)[..n]) == w.(log := LogAfter(w.log, ios, n))
  {
    hide Appended;
    var acts := OwnActs(ios);
    if n == 0 {
    } else {
      AppendsAlone(w, ios, n - 1);
      TakeTake(acts, n - 1, n);
    }
  }

  function OwnActs(ios: seq<AppendIo>): seq<Act> {
    seq(|ios|, i requires 0 <= i < |ios| => CommitAct(ios[i]))
  }

  function Upward(n: nat): seq<nat> {
    seq(n, i => i)
  }

  lemma ReplayedAlone(w: World, recs: seq<D.Record>, provider: string, ios: seq<AppendIo>)
    requires AllFit(recs, ios, provider)
    ensures Appends(recs, provider, OwnActs(ios), Upward(|recs|))
    ensures Replayed(w, recs, provider, OwnActs(ios), Upward(|recs|)) == Ids(w.log, recs, ios, true)
  {
    var acts, own := OwnActs(ios), Upward(|recs|);
    hide AppendOk, LogAfter;
    forall k | 0 <= k < |recs| ensures Answers(w, acts, own)[k] == Oks(w.log, ios)[k] {
      AppendsAlone(w, ios, k);
    }
    assert Answers(w, acts, own) == Oks(w.log, ios);
  }

  // ---- A run that loses -------------------------------------------------------------------

  function Alone(f: Frame): Act {
    CommitAct(AppendIo([f], Healthy(1), true, Some(0)))
  }

  /** The replayed event is dead-lettered again and acknowledged before the removal. */
  function FastFailure(e: Event, provider: string, reason: string, len: nat, ackLen: nat): seq<Act> {
    [Alone(Frame(EventRec(e, [provider]), len)),
     PutAct(provider, e, reason, true, D.PUT_OK),
     Alone(Frame(AckRec(e.id, provider, DeadLetter), ackLen))]
  }

  lemma FastFailureRecords(e: Event, provider: string, reason: string, len: nat, ackLen: nat)
    ensures var acts := FastFailure(e, provider, reason, len, ackLen);
            && Faultless(acts) && |acts| == 3
            && Records(acts) == [EventRec(e, [provider]), AckRec(e.id, provider, DeadLetter)]
            && !StillOwed(Records(acts), e.id, provider)
  {
    var acts := FastFailure(e, provider, reason, len, ackLen);
    assert acts[..2][..1] == acts[..1] && acts[..1][..0] == [];
    assert Records(acts[..1]) == [EventRec(e, [provider])];
    assert Records(acts[..2]) == [EventRec(e, [provider])];
    var recs := Records(acts);
    assert recs == [EventRec(e, [provider]), AckRec(e.id, provider, DeadLetter)];
    assert !Keeps(recs[1], e.id, provider);
    assert forall m :: 0 <= m < 2 && OwedFrom(recs, m, e.id, provider) ==> m == 0;
  }

  /** The event is listed and parked, the append is answered nil, and a fresh record of the event is on
      file just before the removal; after it the event is neither parked nor pending. */
  lemma FastFailureLosesEvent(
    w: World, e: Event, provider: string, reason: string, len: nat, ackLen: nat, rec: D.Record)
    requires Good(w.log) && rec in D.List(w.dlq, provider) && rec.event == e
    ensures var acts := FastFailure(e, provider, reason, len, ackLen);
            && Appends([rec], provider, acts, [0])
            && DI.Parked(w.dlq, provider, e.id)
            && Replayed(w, [rec], provider, acts, [0]) == [e.id]
            && DI.Parked(After(w, acts).dlq, provider, e.id)
            && !Safe(End(w, [rec], provider, acts, [0], D.REMOVE_OK), provider, e.id)
  {
    var acts := FastFailure(e, provider, reason, len, ackLen);
    FastFailureRecords(e, provider, reason, len, ackLen);
    FastFailureAnswer(w, e, provider, reason, len, ackLen, rec);
    FastFailureParks(w, e, provider, reason, len, ackLen);
    DI.RemoveFiles(After(w, acts).dlq, provider, [e.id], D.REMOVE_OK, provider);
    hide After, End, Records, Replayed, StillOwed, FastFailure, RemovalSpares, D.Remove;
    ReplaySafeExactly(w, [rec], provider, acts, [0], D.REMOVE_OK, e.id);
  }

  lemma FastFailureAnswer(
    w: World, e: Event, provider: string, reason: string, len: nat, ackLen: nat, rec: D.Record)
    requires Good(w.log) && rec.event == e
    ensures var acts := FastFailure(e, provider, reason, len, ackLen);
            Appends([rec], provider, acts, [0]) && Replayed(w, [rec], provider, acts, [0]) == [e.id]
  {
    var acts := FastFailure(e, provider, reason, len, ackLen);
    assert acts[..0] == [];
    OneCommit(w.log, Frame(EventRec(e, [provider]), len));
    hide Commit;
    assert Answers(w, acts, [0]) == [true];
    PickNext([rec], [true], 0);
  }

  lemma FastFailureParks(w: World, e: Event, provider: string, reason: string, len: nat, ackLen: nat)
    ensures DI.Parked(After(w, FastFailure(e, provider, reason, len, ackLen)).dlq, provider, e.id)
  {
    var acts := FastFailure(e, provider, reason, len, ackLen);
    assert acts[..2][..1] == acts[..1] && acts[..1][..0] == [];
    hide Appended, D.Put, DI.Parked;
    assert After(w, acts[..1]).dlq == w.dlq;
    DI.PutParksExactly(w.dlq, provider, e, reason, true, D.PUT_OK);
  }
}
