/** The whole daemon as a transition system over the real log and the real dead-letter queue: appends,
    dispatch, batching, retries, acknowledgements, dead-letters, failures, crashes and restarts. */
module Pipeline {
  import opened Types
  import opened WalLog
  import opened WalState
  import opened WalInvariant
  import R = WalRefinement
  import opened WalDurability
  import opened Seqs
  import D = DlqState
  import DI = DlqInvariant

  type Pair = (string, string)

  /** Where a live copy of an event is on its way to one provider. `Acking` means its outcome is known
      and its acknowledgement is about to be written. */
  datatype Stage = Dispatching | Queued | Batched | InFlight | RetryTimer | Acking(disposition: Disposition)

  datatype Copy = Copy(id: string, provider: string, stage: Stage)

  /** `known` are the configured providers, `ever` all that are configured at some point of the run.
      `accepted`, `delivered` and `unrecorded` are history: the pairs whose append was answered nil, those
      the provider's adapter has reported Ok, and those acknowledged without any such outcome, or whose
      last dead-letter record a failed put has purged. `lossy` is set in a process that has dropped a
      copy: an acknowledgement failed, or a retry fired after Close. */
  datatype Sys = Sys(
    log: State,
    dlq: D.Store,
    copies: multiset<Copy>,
    known: set<string>,
    ever: set<string>,
    accepted: set<Pair>,
    delivered: set<Pair>,
    unrecorded: set<Pair>,
    lossy: bool)

  /** A restart can come anywhere in a commit: `answered` requests of the batch that was cut off have had
      their answer by then. */
  datatype Step =
    | CommitStep(batch: seq<Frame>, ios: seq<Io>, syncOk: bool)
    | MoveStep(copy: Copy, to: Stage)
    | ReportOkStep(copy: Copy)
    | DeadLetterStep(copy: Copy, event: Event, reason: string, permanent: bool, io: D.PutIo)
    | DropStep(copy: Copy)
    | RestartStep(cut: Cut, answered: nat, names: seq<string>, known: set<string>)

  /** The pair has an outcome: the adapter reported Ok, or the queue holds a record of it. */
  ghost predicate Answered(s: Sys, id: string, p: string) {
    (id, p) in s.delivered || DI.Parked(s.dlq, p, id)
  }

  /** Nothing is owed for the pair any more, rightly or not. */
  ghost predicate Closed(s: Sys, id: string, p: string) {
    Answered(s, id, p) || (id, p) in s.unrecorded
  }

  // ---- Requests of a batch ----------------------------------------------------------------

  /** The copies whose acknowledgements a batch writes. */
  function AckCopies(batch: seq<Frame>): multiset<Copy> {
    if batch == [] then multiset{}
    else
      var n := |batch| - 1;
      AckCopies(batch[..n]) +
      match batch[n].rec
      case AckRec(id, p, d) => multiset{Copy(id, p, Acking(d))}
      case EventRec(_, _) => multiset{}
  }

  /** Dispatch puts one copy on the way to each provider named, once per mention. */
  function Dispatched(e: Event, providers: seq<string>): multiset<Copy> {
    if providers == [] then multiset{}
    else
      var n := |providers| - 1;
      Dispatched(e, providers[..n]) + multiset{Copy(e.id, providers[n], Dispatching)}
  }

  /** The copies dispatched once their appends have been answered nil. */
  function NewCopies(batch: seq<Frame>, replies: seq<bool>): multiset<Copy>
    requires |batch| == |replies|
  {
    if batch == [] then multiset{}
    else
      var n := |batch| - 1;
      NewCopies(batch[..n], replies[..n]) + NewCopiesOf(batch[n].rec, replies[n])
  }

  function NewCopiesOf(r: Rec, ok: bool): multiset<Copy> {
    if ok && r.EventRec? then Dispatched(r.event, r.providers) else multiset{}
  }

  function NewPairs(batch: seq<Frame>, replies: seq<bool>): set<Pair>
    requires |batch| == |replies|
  {
    set i, p | 0 <= i < |batch| && replies[i] && batch[i].rec.EventRec? && p in Members(batch[i].rec.providers) ::
      (batch[i].rec.event.id, p)
  }

  predicate AckFailed(batch: seq<Frame>, replies: seq<bool>)
    requires |batch| == |replies|
  {
    exists i :: 0 <= i < |batch| && batch[i].rec.AckRec? && !replies[i]
  }

  /** The pairs a batch acknowledges that have no outcome on record. */
  ghost function UnansweredAcks(s: Sys, batch: seq<Frame>): set<Pair> {
    set i | 0 <= i < |batch| && batch[i].rec.AckRec? && !Answered(s, batch[i].rec.eventId, batch[i].rec.provider) ::
      (batch[i].rec.eventId, batch[i].rec.provider)
  }

  /** What the ingest path promises of every append: providers that exist, and, when an id is appended
      again, at least those still owed an answer. */
  ghost predicate AppendsOk(s: Sys, batch: seq<Frame>) {
    forall j :: 0 <= j < |batch| && batch[j].rec.EventRec? ==>
      && Members(batch[j].rec.providers) <= s.known
      && (forall p :: (batch[j].rec.event.id, p) in s.accepted && !Closed(s, batch[j].rec.event.id, p) ==>
            p in batch[j].rec.providers)
      && (forall i :: 0 <= i < j && IsEventOf(batch[i].rec, batch[j].rec.event.id) ==>
            Members(batch[i].rec.providers) <= Members(batch[j].rec.providers))
  }

  // ---- Transitions ------------------------------------------------------------------------

  predicate Moves(a: Stage, b: Stage) {
    || (a == Dispatching && b == Queued)
    || (a == Queued && b == Batched)
    || (a == Batched && b == InFlight)
    || (a == InFlight && b == RetryTimer)
    || (a == RetryTimer && b == Queued)
  }

  /** Startup enqueues each pending pair of a configured provider once. */
  function Reenqueued(ix: Index, known: set<string>): multiset<Copy> {
    multiset(set id, p | id in ix && p in ix[id].pending && p in known :: Copy(id, p, Queued))
  }

  /** The requests of a batch come from the process: acknowledgements of copies whose outcome it knows,
      and appends as the ingest path makes them. */
  ghost predicate Submitted(s: Sys, batch: seq<Frame>) {
    AckCopies(batch) <= s.copies && AppendsOk(s, batch)
  }

  /** The restart is safe for every id that something is owed for. */
  ghost predicate SafeRestart(s: Sys, cut: Cut, answered: nat)
    requires CanCrash(s.log, cut) && answered <= |cut.batch|
  {
    forall id, p ::
      (id, p) in s.accepted + NewPairs(cut.batch[..answered], AnswersOf(s.log, cut)[..answered]) && !Closed(s, id, p) ==>
        RestartIsSafe(s.log, R.CrashStep(cut), id)
  }

  /** The answers of the batch that was cut off, as far as they were given. */
  function AnswersOf(log: State, cut: Cut): (replies: seq<bool>)
    requires CanCrash(log, cut)
    ensures |replies| == |cut.batch|
  {
    Commit(log, cut.batch, cut.ios, cut.syncOk).replies
  }

  ghost predicate Enabled(s: Sys, st: Step) {
    match st
    case CommitStep(batch, ios, _) => s.log.segments != [] && |batch| == |ios| && Submitted(s, batch)
    case MoveStep(c, to) => c in s.copies && Moves(c.stage, to)
    case ReportOkStep(c) => c in s.copies && c.stage == InFlight
    case DeadLetterStep(c, e, _, _, _) => c in s.copies && c.stage == InFlight && e.id == c.id
    case DropStep(c) => c in s.copies && c.stage == RetryTimer
    case RestartStep(cut, answered, names, known) =>
      && CanCrash(s.log, cut) && answered <= |cut.batch| && Submitted(s, cut.batch) && SafeRestart(s, cut, answered)
      && DI.Listing(s.dlq.files, names) && known <= s.ever
  }

  ghost function Next(s: Sys, st: Step): Sys
    requires st.CommitStep? ==> s.log.segments != [] && |st.batch| == |st.ios|
    requires st.RestartStep? ==> CanCrash(s.log, st.cut) && st.answered <= |st.cut.batch|
  {
    match st
    case CommitStep(batch, ios, syncOk) =>
      var r := Commit(s.log, batch, ios, syncOk);
      s.(log := r.state,
         copies := s.copies - AckCopies(batch) + NewCopies(batch, r.replies),
         accepted := s.accepted + NewPairs(batch, r.replies),
         unrecorded := s.unrecorded + UnansweredAcks(s, batch),
         lossy := s.lossy || AckFailed(batch, r.replies))
    case MoveStep(c, to) => s.(copies := s.copies - multiset{c} + multiset{c.(stage := to)})
    case ReportOkStep(c) =>
      s.(copies := s.copies - multiset{c} + multiset{c.(stage := Acking(Ok))},
         delivered := s.delivered + {(c.id, c.provider)})
    case DeadLetterStep(c, e, reason, permanent, io) =>
      var dlq := D.Put(s.dlq, c.provider, e, reason, permanent, io).store;
      s.(copies := s.copies - multiset{c} + multiset{c.(stage := Acking(DeadLetter))},
         dlq := dlq,
         unrecorded := s.unrecorded + (if DI.Parked(s.dlq, c.provider, c.id) && !DI.Parked(dlq, c.provider, c.id)
                                       then {(c.id, c.provider)} else {}))
    case DropStep(c) => s.(copies := s.copies - multiset{c}, lossy := true)
    case RestartStep(cut, answered, names, known) =>
      var log := R.Next(s.log, R.CrashStep(cut));
      s.(log := log, dlq := D.Open(s.dlq.files, names), known := known,
         copies := Reenqueued(log.index, known),
         accepted := s.accepted + NewPairs(cut.batch[..answered], AnswersOf(s.log, cut)[..answered]),
         unrecorded := s.unrecorded + UnansweredAcks(s, cut.batch),
         lossy := false)
  }

  /** Every run from empty directories, with crashes and restarts anywhere, of providers no two of which
      share a dead-letter file. */
  ghost predicate IsRun(run: seq<Sys>, steps: seq<Step>, maxSegmentBytes: int) {
    && |run| == |steps| + 1
    && run[0].log == Open([], maxSegmentBytes) && run[0].dlq == D.Open(map[], [])
    && run[0].copies == multiset{} && run[0].accepted == {} && run[0].delivered == {} && run[0].unrecorded == {} && !run[0].lossy
    && DI.Apart(run[0].ever) && run[0].known <= run[0].ever
    && forall i :: 0 <= i < |steps| ==> Enabled(run[i], steps[i]) && run[i + 1] == Next(run[i], steps[i])
  }

  // ---- The invariant ----------------------------------------------------------------------

  /** Every accepted pair is closed, or the log holds it. */
  ghost predicate Conserved(s: Sys)
    requires s.log.segments != []
  {
    forall id, p :: (id, p) in s.accepted && !Closed(s, id, p) ==> Held(s.log, id, p)
  }

  ghost predicate HasCopy(s: Sys, id: string, p: string) {
    exists stage :: Copy(id, p, stage) in s.copies
  }

  /** Every pair pending for a configured provider has a live copy somewhere in the process. */
  ghost predicate NoneStranded(s: Sys) {
    forall id, p :: Owes(s.log.index, id, p) && p in s.known ==> HasCopy(s, id, p)
  }

  /** Everything in the process is for providers configured at some point, and those share no file. */
  ghost predicate FilesApart(s: Sys) {
    && DI.Apart(s.ever) && s.known <= s.ever
    && (forall c :: c in s.copies ==> c.provider in s.ever)
    && (forall id, p :: (id, p) in s.accepted ==> p in s.ever)
  }

  ghost predicate Good(s: Sys) {
    && Inv(s.log)
    && FilesApart(s)
    && Conserved(s)
    && (!s.lossy ==> NoneStranded(s))
  }

  // ---- Commit -----------------------------------------------------------------------------

  predicate IsAckCopy(r: Rec, c: Copy) {
    r.AckRec? && c == Copy(r.eventId, r.provider, Acking(r.disposition))
  }

  lemma {:induction false} AckCopiesAre(batch: seq<Frame>, c: Copy)
    ensures c in AckCopies(batch) <==> exists i :: 0 <= i < |batch| && IsAckCopy(batch[i].rec, c)
  {
    if batch == [] {
    } else {
      var n := |batch| - 1;
      AckCopiesAre(batch[..n], c);
      assert c in AckCopies(batch) <==> c in AckCopies(batch[..n]) || IsAckCopy(batch[n].rec, c);
      hide AckCopies, IsAckCopy;
      assert forall i :: 0 <= i < n ==> batch[..n][i] == batch[i];
    }
  }

  lemma {:induction false} DispatchedAre(e: Event, providers: seq<string>, p: string)
    requires p in providers
    ensures Copy(e.id, p, Dispatching) in Dispatched(e, providers)
  {
    var n := |providers| - 1;
    SplitLast(providers);
    if p != providers[n] {
      DispatchedAre(e, providers[..n], p);
    }
  }

  lemma {:induction false} DispatchedOnly(e: Event, providers: seq<string>, c: Copy)
    requires c in Dispatched(e, providers)
    ensures c.stage == Dispatching && c.provider in Members(providers)
  {
    var n := |providers| - 1;
    SplitLast(providers);
    if c in Dispatched(e, providers[..n]) {
      DispatchedOnly(e, providers[..n], c);
    }
  }

  lemma {:induction false} NewCopiesAre(batch: seq<Frame>, replies: seq<bool>, i: nat, p: string)
    requires |batch| == |replies| && i < |batch| && replies[i] && batch[i].rec.EventRec? && p in batch[i].rec.providers
    ensures Copy(batch[i].rec.event.id, p, Dispatching) in NewCopies(batch, replies)
  {
    var n := |batch| - 1;
    if i == n {
      DispatchedAre(batch[n].rec.event, batch[n].rec.providers, p);
    } else {
      NewCopiesAre(batch[..n], replies[..n], i, p);
    }
  }

  lemma {:induction false} NewCopiesOnly(batch: seq<Frame>, replies: seq<bool>, c: Copy)
    requires |batch| == |replies| && c in NewCopies(batch, replies)
    ensures c.stage == Dispatching
    ensures exists i :: 0 <= i < |batch| && batch[i].rec.EventRec? && c.provider in Members(batch[i].rec.providers)
  {
    var n := |batch| - 1;
    if c in NewCopies(batch[..n], replies[..n]) {
      NewCopiesOnly(batch[..n], replies[..n], c);
    } else {
      DispatchedOnly(batch[n].rec.event, batch[n].rec.providers, c);
    }
  }

  /** No record of a submitted batch answers or supersedes a pair that is accepted and stays open, nor
      does one that follows an append of the same pair in the batch. */
  lemma BatchKeeps(s: Sys, batch: seq<Frame>, id: string, p: string, from: nat)
    requires AppendsOk(s, batch) && from <= |batch|
    requires !Closed(s, id, p) && (id, p) !in UnansweredAcks(s, batch)
    requires if from == 0 then (id, p) in s.accepted else IsEventOf(batch[from - 1].rec, id) && p in batch[from - 1].rec.providers
    ensures KeptFrom(batch, id, p, from)
  {
    hide DI.Parked;
    forall j | from <= j < |batch| ensures Keeps(batch[j].rec, id, p) {
      if batch[j].rec.AckRec? {
        assert IsAckOf(batch[j].rec, id, p) ==> (id, p) in UnansweredAcks(s, batch);
      } else if batch[j].rec.event.id == id && from > 0 {
        assert p in Members(batch[from - 1].rec.providers);
        assert p in Members(batch[j].rec.providers);
      }
    }
  }

  /** What is accepted and open after a commit is held by the log it leaves. */
  lemma CommitHolds(s: Sys, batch: seq<Frame>, ios: seq<Io>, syncOk: bool, replies: seq<bool>, id: string, p: string)
    requires Inv(s.log) && Conserved(s) && |batch| == |ios| == |replies| && AppendsOk(s, batch)
    requires replies == Commit(s.log, batch, ios, syncOk).replies
    requires (id, p) in s.accepted + NewPairs(batch, replies)
    requires !Closed(s, id, p) && (id, p) !in UnansweredAcks(s, batch)
    ensures var t := Commit(s.log, batch, ios, syncOk).state; t.segments != [] && Held(t, id, p)
  {
    hide Commit, Held, KeptFrom, Closed, UnansweredAcks, AppendsOk, Inv, Keeps;
    if (id, p) in s.accepted {
      BatchKeeps(s, batch, id, p, 0);
      KeptIs(batch, id, p, 0);
      CommitKeepsHeld(s.log, batch, ios, syncOk, id, p);
    } else {
      var i :| 0 <= i < |batch| && replies[i] && batch[i].rec.EventRec? && p in Members(batch[i].rec.providers)
               && batch[i].rec.event.id == id;
      BatchKeeps(s, batch, id, p, i + 1);
      KeptIs(batch, id, p, i + 1);
      NilReplyHolds(s.log, batch, ios, syncOk, i, p);
    }
  }

  lemma CommitConserves(s: Sys, batch: seq<Frame>, ios: seq<Io>, syncOk: bool)
    requires Good(s) && Enabled(s, CommitStep(batch, ios, syncOk))
    ensures var t := Next(s, CommitStep(batch, ios, syncOk)); Inv(t.log) && Conserved(t)
  {
    hide Commit, Held;
    CommitInv(s.log, batch, ios, syncOk);
    CommitReplies(s.log, batch, ios, syncOk);
    var t := Next(s, CommitStep(batch, ios, syncOk));
    var replies := Commit(s.log, batch, ios, syncOk).replies;
    forall id, p | (id, p) in t.accepted && !Closed(t, id, p) ensures Held(t.log, id, p) {
      assert !Closed(s, id, p) && (id, p) !in UnansweredAcks(s, batch);
      CommitHolds(s, batch, ios, syncOk, replies, id, p);
    }
  }

  lemma KeptIs(batch: seq<Frame>, id: string, p: string, from: nat)
    requires KeptFrom(batch, id, p, from)
    ensures forall j :: from <= j < |batch| ==> Keeps(batch[j].rec, id, p)
  {
  }

  lemma CommitReplies(log: State, batch: seq<Frame>, ios: seq<Io>, syncOk: bool)
    requires log.segments != [] && |batch| == |ios|
    ensures |Commit(log, batch, ios, syncOk).replies| == |batch|
  {
  }

  /** A request of the batch that was answered nil is an append of the pair. */
  ghost predicate AppendedIn(batch: seq<Frame>, oks: seq<bool>, id: string, p: string)
    requires |batch| == |oks|
  {
    exists i :: 0 <= i < |batch| && oks[i] && IsEventOf(batch[i].rec, id) && p in batch[i].rec.providers
  }

  ghost predicate UnackedIn(batch: seq<Frame>, oks: seq<bool>, id: string, p: string)
    requires |batch| == |oks|
  {
    forall i :: 0 <= i < |batch| && oks[i] ==> !IsAckOf(batch[i].rec, id, p)
  }

  /** A pair owed after the apply phase was named by an answered append of the batch, or was owed
      before it and no acknowledgement of it was applied. */
  lemma {:induction false} ApplyAllOwes(
    f: State, batch: seq<Frame>, outs: seq<Outcome>, synced: seq<bool>, finalOk: bool, oks: seq<bool>, id: string, p: string)
    requires |batch| == |outs| == |synced| == |oks|
    requires forall i :: 0 <= i < |batch| ==> oks[i] == Acked(outs[i], synced[i], finalOk)
    requires Owes(ApplyAll(f, batch, outs, synced, finalOk).index, id, p)
    ensures AppendedIn(batch, oks, id, p) || (Owes(f.index, id, p) && UnackedIn(batch, oks, id, p))
  {
    if batch == [] {
    } else {
      var n := |batch| - 1;
      var before := ApplyAll(f, batch[..n], outs[..n], synced[..n], finalOk).index;
      if oks[n] && IsEventOf(batch[n].rec, id) {
        assert p in Members(batch[n].rec.providers);
      } else {
        assert Owes(before, id, p);
        ApplyAllOwes(f, batch[..n], outs[..n], synced[..n], finalOk, oks[..n], id, p);
      }
    }
  }

  lemma CommitIndex(log: State, batch: seq<Frame>, ios: seq<Io>, syncOk: bool)
    requires Inv(log) && |batch| == |ios|
    ensures var w := WriteAll(log, batch, ios);
            var f := Flushed(log, batch, ios, syncOk);
            && f.index == log.index
            && Commit(log, batch, ios, syncOk).state.index ==
               ApplyAll(f, batch, w.outs, w.synced, FinalOk(log, batch, ios, syncOk)).index
            && Commit(log, batch, ios, syncOk).replies == Replies(w, FinalOk(log, batch, ios, syncOk))
  {
    AppliedInv(log, batch, ios, syncOk);
    GcDrops(Applied(log, batch, ios, syncOk));
    hide WriteAll, ApplyAll, Flushed, Gc, Dropped, Present, Strip, Inv;
  }

  lemma CommitOwes(log: State, batch: seq<Frame>, ios: seq<Io>, syncOk: bool, id: string, p: string)
    requires Inv(log) && |batch| == |ios|
    requires Owes(Commit(log, batch, ios, syncOk).state.index, id, p)
    ensures var replies := Commit(log, batch, ios, syncOk).replies;
            && |replies| == |batch|
            && (AppendedIn(batch, replies, id, p) || (Owes(log.index, id, p) && UnackedIn(batch, replies, id, p)))
  {
    hide Commit, AppendedIn, UnackedIn, ApplyAll, Owes;
    var w := WriteAll(log, batch, ios);
    var replies := Commit(log, batch, ios, syncOk).replies;
    CommitIndex(log, batch, ios, syncOk);
    ApplyAllOwes(Flushed(log, batch, ios, syncOk), batch, w.outs, w.synced, FinalOk(log, batch, ios, syncOk), replies, id, p);
  }

  lemma CommitStrandsNone(s: Sys, batch: seq<Frame>, ios: seq<Io>, syncOk: bool)
    requires Good(s) && Enabled(s, CommitStep(batch, ios, syncOk))
    ensures var t := Next(s, CommitStep(batch, ios, syncOk)); !t.lossy ==> NoneStranded(t)
  {
    hide Commit;
    CommitReplies(s.log, batch, ios, syncOk);
    var r := Commit(s.log, batch, ios, syncOk);
    var t := Next(s, CommitStep(batch, ios, syncOk));
    if !t.lossy {
      forall id, p | Owes(t.log.index, id, p) && p in t.known ensures HasCopy(t, id, p) {
        CommitOwes(s.log, batch, ios, syncOk, id, p);
        if i :| 0 <= i < |batch| && r.replies[i] && IsEventOf(batch[i].rec, id) && p in batch[i].rec.providers {
          NewCopiesAre(batch, r.replies, i, p);
          assert Copy(id, p, Dispatching) in t.copies;
        } else {
          assert HasCopy(s, id, p);
          var stage :| Copy(id, p, stage) in s.copies;
          AckCopiesAre(batch, Copy(id, p, stage));
          assert forall j :: 0 <= j < |batch| && batch[j].rec.AckRec? ==> r.replies[j];
          assert Copy(id, p, stage) !in AckCopies(batch);
          assert Copy(id, p, stage) in t.copies;
        }
      }
    }
  }

  lemma CommitGood(s: Sys, batch: seq<Frame>, ios: seq<Io>, syncOk: bool)
    requires Good(s) && Enabled(s, CommitStep(batch, ios, syncOk))
    ensures Good(Next(s, CommitStep(batch, ios, syncOk)))
  {
    hide Commit, Held;
    CommitConserves(s, batch, ios, syncOk);
    CommitStrandsNone(s, batch, ios, syncOk);
    CommitReplies(s.log, batch, ios, syncOk);
    var t := Next(s, CommitStep(batch, ios, syncOk));
    var replies := Commit(s.log, batch, ios, syncOk).replies;
    forall c | c in t.copies ensures c in s.copies || (c.stage == Dispatching && c.provider in s.ever) {
      if c !in s.copies {
        assert c in NewCopies(batch, replies);
        NewCopiesOnly(batch, replies, c);
      }
    }
    NewPairsApart(s, batch, replies);
    hide NewCopies, NewPairs, AckCopies, AppendsOk, Answered;
    assert FilesApart(t);
  }

  lemma NewPairsApart(s: Sys, batch: seq<Frame>, replies: seq<bool>)
    requires FilesApart(s) && AppendsOk(s, batch) && |batch| == |replies|
    ensures forall pair :: pair in NewPairs(batch, replies) ==> pair.1 in s.ever
  {
  }

  // ---- The other steps --------------------------------------------------------------------

  /** Replacing one copy by another of the same pair strands nothing. */
  lemma SwapKeepsCopies(s: Sys, c: Copy, to: Stage, t: Sys)
    requires c in s.copies && t.copies == s.copies - multiset{c} + multiset{c.(stage := to)}
    requires NoneStranded(s) && t.log == s.log && t.known == s.known
    ensures NoneStranded(t)
  {
    forall id, p | Owes(t.log.index, id, p) && p in t.known ensures HasCopy(t, id, p) {
      assert HasCopy(s, id, p);
      var stage :| Copy(id, p, stage) in s.copies;
      if Copy(id, p, stage) == c {
        assert Copy(id, p, to) in t.copies;
      } else {
        assert Copy(id, p, stage) in t.copies;
      }
    }
  }

  /** Closed pairs stay closed. */
  ghost predicate StaysClosed(s: Sys, t: Sys) {
    forall id, p :: Closed(s, id, p) && p in s.ever ==> Closed(t, id, p)
  }

  /** Moving a copy on without reopening a pair is a good step. */
  lemma SwapGood(s: Sys, c: Copy, to: Stage, t: Sys)
    requires Good(s) && c in s.copies && StaysClosed(s, t)
    requires t == s.(copies := s.copies - multiset{c} + multiset{c.(stage := to)}, dlq := t.dlq,
                     delivered := t.delivered, unrecorded := t.unrecorded)
    ensures Good(t)
  {
    assert t.log.segments != [];
    hide Held, Inv, Closed, DI.Apart;
    forall x | x in t.copies ensures x in s.copies || x == c.(stage := to) { }
    assert FilesApart(t);
    assert Conserved(t);
    if !s.lossy {
      SwapKeepsCopies(s, c, to, t);
    }
  }

  lemma LocalGood(s: Sys, st: Step)
    requires Good(s) && Enabled(s, st) && (st.MoveStep? || st.ReportOkStep? || st.DropStep?)
    ensures Good(Next(s, st))
  {
    hide Held, Inv, DI.Parked, DI.Apart, D.Put, D.Open, Commit, R.Next, UnansweredAcks;
    match st
    case MoveStep(c, to) => SwapGood(s, c, to, Next(s, st));
    case ReportOkStep(c) => SwapGood(s, c, Acking(Ok), Next(s, st));
    case DropStep(c) => DropGood(s, c);
  }

  lemma DropGood(s: Sys, c: Copy)
    requires Good(s) && c in s.copies
    ensures Good(s.(copies := s.copies - multiset{c}, lossy := true))
  {
    hide Held, Inv, DI.Parked, DI.Apart;
    var t := s.(copies := s.copies - multiset{c}, lossy := true);
    forall x | x in t.copies ensures x in s.copies { }
    forall id, p ensures Closed(t, id, p) == Closed(s, id, p) { }
    hide Closed;
  }

  lemma DeadLetterGood(s: Sys, c: Copy, e: Event, reason: string, permanent: bool, io: D.PutIo)
    requires Good(s) && Enabled(s, DeadLetterStep(c, e, reason, permanent, io))
    ensures Good(Next(s, DeadLetterStep(c, e, reason, permanent, io)))
  {
    hide Held, Inv, D.Put, D.Open, Commit, R.Next, UnansweredAcks, DI.Parked;
    var t := Next(s, DeadLetterStep(c, e, reason, permanent, io));
    forall id, p | Closed(s, id, p) && p in s.ever ensures Closed(t, id, p) {
      if DI.Parked(s.dlq, p, id) && !(p == c.provider && id == c.id) {
        DI.PutKeepsParked(s.dlq, c.provider, e, reason, permanent, io, p, id);
      }
    }
    SwapGood(s, c, Acking(DeadLetter), t);
  }

  /** Every pair pending for a configured provider is enqueued exactly once at startup, and nothing
      else is. */
  lemma ReenqueuedExactly(ix: Index, known: set<string>, c: Copy)
    ensures Reenqueued(ix, known)[c] == if c.stage == Queued && Owes(ix, c.id, c.provider) && c.provider in known then 1 else 0
  {
  }

  /** What is accepted and open after a restart was held when the process stopped. */
  lemma StoppedConserves(s: Sys, cut: Cut, answered: nat, id: string, p: string)
    requires Good(s) && CanCrash(s.log, cut) && answered <= |cut.batch| && AppendsOk(s, cut.batch)
    requires (id, p) in s.accepted + NewPairs(cut.batch[..answered], AnswersOf(s.log, cut)[..answered])
    requires !Closed(s, id, p) && (id, p) !in UnansweredAcks(s, cut.batch)
    ensures Inv(Stopped(s.log, cut)) && Held(Stopped(s.log, cut), id, p)
  {
    hide Commit, Held, KeptFrom, Closed, UnansweredAcks, AppendsOk, Stopped, Keeps;
    if (id, p) in s.accepted {
      BatchKeeps(s, cut.batch, id, p, 0);
      StoppedHeld(s.log, cut, id, p, 0);
    } else {
      var replies := AnswersOf(s.log, cut);
      var i :| 0 <= i < answered && replies[..answered][i] && cut.batch[..answered][i].rec.EventRec?
               && p in Members(cut.batch[..answered][i].rec.providers) && cut.batch[..answered][i].rec.event.id == id;
      assert cut.batch[..answered][i] == cut.batch[i] && replies[..answered][i] == replies[i];
      BatchKeeps(s, cut.batch, id, p, i + 1);
      assert AppendedAt(s.log, cut.batch, cut.ios, cut.syncOk, id, p, i);
      StoppedHeld(s.log, cut, id, p, i + 1);
    }
  }

  lemma RestartConserves(s: Sys, cut: Cut, answered: nat, names: seq<string>, known: set<string>)
    requires Good(s) && Enabled(s, RestartStep(cut, answered, names, known))
    ensures var t := Next(s, RestartStep(cut, answered, names, known)); t.log.segments != [] && Conserved(t)
  {
    var t := Next(s, RestartStep(cut, answered, names, known));
    hide Held, D.Open, Open, Inv, Commit, Stopped, CanCrash, AppendsOk, AckCopies, NewPairs, UnansweredAcks;
    DI.OpenIs(s.dlq.files, names, "");
    assert t.dlq.files == s.dlq.files;
    RestartSegments(s.log, cut);
    forall id, p | (id, p) in t.accepted && !Closed(t, id, p) ensures Held(t.log, id, p) {
      assert !Closed(s, id, p) && (id, p) !in UnansweredAcks(s, cut.batch);
      hide Closed;
      StoppedConserves(s, cut, answered, id, p);
      assert RestartIsSafe(s.log, R.CrashStep(cut), id);
      SafeRestartHolds(s.log, cut, id, p);
    }
  }

  lemma SafeRestartHolds(log: State, cut: Cut, id: string, p: string)
    requires CanCrash(log, cut) && Inv(Stopped(log, cut)) && Held(Stopped(log, cut), id, p)
    requires RestartIsSafe(log, R.CrashStep(cut), id) && Stopped(log, cut).maxSegmentBytes == log.maxSegmentBytes
    ensures var t := R.Next(log, R.CrashStep(cut)); t.segments != [] && Held(t, id, p)
  {
    hide Stopped, Inv, Held, OnlyUnsynced, Open;
    RestartKeepsHeldExactly(Stopped(log, cut), cut.keep, cut.dur, id, p);
  }

  lemma RestartSegments(log: State, cut: Cut)
    requires Inv(log) && CanCrash(log, cut)
    ensures R.Next(log, R.CrashStep(cut)).segments != [] && Stopped(log, cut).maxSegmentBytes == log.maxSegmentBytes
  {
    R.NextInv(log, R.CrashStep(cut));
    StoppedInv(log, cut);
  }

  lemma RestartGood(s: Sys, cut: Cut, answered: nat, names: seq<string>, known: set<string>)
    requires Good(s) && Enabled(s, RestartStep(cut, answered, names, known))
    ensures Good(Next(s, RestartStep(cut, answered, names, known)))
  {
    var t := Next(s, RestartStep(cut, answered, names, known));
    PrefixApart(s, cut.batch, AnswersOf(s.log, cut), answered);
    hide Held, D.Open, Open, Inv, Commit, Stopped, CanCrash, AppendsOk, AckCopies, NewPairs, UnansweredAcks, SafeRestart,
      DI.Listing, Reenqueued, Closed, NoneStranded, Conserved;
    R.NextInv(s.log, R.CrashStep(cut));
    RestartConserves(s, cut, answered, names, known);
    ReenqueuedStrandsNone(t);
    assert FilesApart(t);
  }

  lemma ReenqueuedStrandsNone(t: Sys)
    requires t.copies == Reenqueued(t.log.index, t.known)
    ensures NoneStranded(t) && forall c :: c in t.copies ==> c.provider in t.known
  {
    forall id, p | Owes(t.log.index, id, p) && p in t.known ensures HasCopy(t, id, p) {
      ReenqueuedExactly(t.log.index, t.known, Copy(id, p, Queued));
    }
    forall c | c in t.copies ensures c.provider in t.known {
      ReenqueuedExactly(t.log.index, t.known, c);
    }
  }

  lemma PrefixApart(s: Sys, batch: seq<Frame>, replies: seq<bool>, n: nat)
    requires FilesApart(s) && AppendsOk(s, batch) && n <= |batch| == |replies|
    ensures forall pair :: pair in NewPairs(batch[..n], replies[..n]) ==> pair.1 in s.ever
  {
    forall pair | pair in NewPairs(batch[..n], replies[..n]) ensures pair.1 in s.ever {
      var i, p :| 0 <= i < n && batch[..n][i].rec.EventRec? && p in Members(batch[..n][i].rec.providers)
                  && pair == (batch[..n][i].rec.event.id, p);
      assert batch[..n][i] == batch[i];
    }
  }

  lemma NextGood(s: Sys, st: Step)
    requires Good(s) && Enabled(s, st)
    ensures Good(Next(s, st))
  {
    match st
    case CommitStep(batch, ios, syncOk) => CommitGood(s, batch, ios, syncOk);
    case DeadLetterStep(c, e, reason, permanent, io) => DeadLetterGood(s, c, e, reason, permanent, io);
    case RestartStep(cut, answered, names, known) => RestartGood(s, cut, answered, names, known);
    case MoveStep(_, _) => LocalGood(s, st);
    case ReportOkStep(_) => LocalGood(s, st);
    case DropStep(_) => LocalGood(s, st);
  }

  lemma {:induction false} RunGood(run: seq<Sys>, steps: seq<Step>, maxSegmentBytes: int, i: nat)
    requires IsRun(run, steps, maxSegmentBytes) && i < |run|
    ensures Good(run[i])
  {
    if i == 0 {
      FreshInv(maxSegmentBytes);
    } else {
      RunGood(run, steps, maxSegmentBytes, i - 1);
      NextGood(run[i - 1], steps[i - 1]);
    }
  }

  // ---- The two promises -------------------------------------------------------------------

  /** No accepted obligation is ever lost without a trace. In every state of every run, whatever fails and
      however often the process crashes, each accepted pair has been reported delivered, has a dead-letter
      record, or is pending in the replay of whatever a crash leaves of the log, at that moment or inside
      the commit of any next batch that does not touch it; or it is among the unrecorded ones. */
  lemma ObligationsConserved(
    run: seq<Sys>, steps: seq<Step>, maxSegmentBytes: int, i: nat, id: string, p: string, cut: Cut)
    requires IsRun(run, steps, maxSegmentBytes) && i < |run|
    requires (id, p) in run[i].accepted && CanCrash(run[i].log, cut) && KeptFrom(cut.batch, id, p, 0)
    ensures || (id, p) in run[i].delivered
            || DI.Parked(run[i].dlq, p, id)
            || Owes(R.Next(run[i].log, R.CrashStep(cut)).index, id, p)
            || (id, p) in run[i].unrecorded
  {
    RunGood(run, steps, maxSegmentBytes, i);
    hide IsRun, CanCrash, KeptFrom, R.Next, Inv, Held, DI.Parked;
    if !Closed(run[i], id, p) {
      NextStartHasIt(run[i].log, cut, id, p);
    }
  }

  // ---- When nothing is unrecorded ---------------------------------------------------------

  /** Nothing is acknowledged before its outcome is on record. */
  ghost predicate AcksJustified(s: Sys) {
    forall c :: c in s.copies && c.stage.Acking? ==> Answered(s, c.id, c.provider)
  }

  ghost predicate Justified(s: Sys) {
    AcksJustified(s) && s.unrecorded == {}
  }

  /** If the step dead-letters a copy, the put gets the line on file. */
  ghost predicate PutsWrite(s: Sys, st: Step) {
    st.DeadLetterStep? ==> DI.PutWrites(s.dlq, st.copy.provider, st.copy.id, st.permanent, st.io)
  }

  lemma AckIsJustified(s: Sys, batch: seq<Frame>, j: nat)
    requires AcksJustified(s) && AckCopies(batch) <= s.copies && j < |batch| && batch[j].rec.AckRec?
    ensures Answered(s, batch[j].rec.eventId, batch[j].rec.provider)
  {
    var c := Copy(batch[j].rec.eventId, batch[j].rec.provider, Acking(batch[j].rec.disposition));
    assert IsAckCopy(batch[j].rec, c);
    AckCopiesAre(batch, c);
    assert c in s.copies;
  }

  lemma NothingUnanswered(s: Sys, batch: seq<Frame>)
    requires AcksJustified(s) && AckCopies(batch) <= s.copies
    ensures UnansweredAcks(s, batch) == {}
  {
    forall j | 0 <= j < |batch| && batch[j].rec.AckRec? ensures Answered(s, batch[j].rec.eventId, batch[j].rec.provider) {
      AckIsJustified(s, batch, j);
    }
  }

  lemma CommitJustified(s: Sys, batch: seq<Frame>, ios: seq<Io>, syncOk: bool)
    requires Justified(s) && Enabled(s, CommitStep(batch, ios, syncOk))
    ensures Justified(Next(s, CommitStep(batch, ios, syncOk)))
  {
    hide Commit, DI.Parked;
    CommitReplies(s.log, batch, ios, syncOk);
    NothingUnanswered(s, batch);
    var t := Next(s, CommitStep(batch, ios, syncOk));
    var replies := Commit(s.log, batch, ios, syncOk).replies;
    forall c | c in t.copies && c.stage.Acking? ensures Answered(t, c.id, c.provider) {
      if c in NewCopies(batch, replies) {
        NewCopiesOnly(batch, replies, c);
      }
      assert c in s.copies;
    }
  }

  lemma DeadLetterStaysJustified(s: Sys, c: Copy, e: Event, reason: string, permanent: bool, io: D.PutIo)
    requires Justified(s) && FilesApart(s) && Enabled(s, DeadLetterStep(c, e, reason, permanent, io))
    requires DI.PutWrites(s.dlq, c.provider, c.id, permanent, io)
    ensures Justified(Next(s, DeadLetterStep(c, e, reason, permanent, io)))
  {
    hide D.Put, DI.Parked, DI.PutWrites, DI.PutSparesRecord;
    var t := Next(s, DeadLetterStep(c, e, reason, permanent, io));
    DI.PutParksExactly(s.dlq, c.provider, e, reason, permanent, io);
    forall x | x in t.copies && x.stage.Acking? ensures Answered(t, x.id, x.provider) {
      if !(x.provider == c.provider && x.id == c.id) {
        assert x in s.copies;
        if DI.Parked(s.dlq, x.provider, x.id) {
          DI.PutKeepsParked(s.dlq, c.provider, e, reason, permanent, io, x.provider, x.id);
        }
      }
    }
  }

  lemma RestartJustified(s: Sys, cut: Cut, answered: nat, names: seq<string>, known: set<string>)
    requires Justified(s) && Enabled(s, RestartStep(cut, answered, names, known))
    ensures Justified(Next(s, RestartStep(cut, answered, names, known)))
  {
    var t := Next(s, RestartStep(cut, answered, names, known));
    hide Commit, Open, D.Open, Stopped, CanCrash, DI.Parked;
    NothingUnanswered(s, cut.batch);
    forall c | c in t.copies ensures c.stage == Queued {
      ReenqueuedExactly(t.log.index, known, c);
    }
  }

  lemma NextJustified(s: Sys, st: Step)
    requires Good(s) && Justified(s) && Enabled(s, st) && PutsWrite(s, st)
    ensures Justified(Next(s, st))
  {
    match st
    case CommitStep(batch, ios, syncOk) => CommitJustified(s, batch, ios, syncOk);
    case DeadLetterStep(c, e, reason, permanent, io) => DeadLetterStaysJustified(s, c, e, reason, permanent, io);
    case RestartStep(cut, answered, names, known) => RestartJustified(s, cut, answered, names, known);
    case MoveStep(_, _) => LocalJustified(s, st);
    case ReportOkStep(_) => LocalJustified(s, st);
    case DropStep(_) => LocalJustified(s, st);
  }

  lemma LocalJustified(s: Sys, st: Step)
    requires Justified(s) && Enabled(s, st) && (st.MoveStep? || st.ReportOkStep? || st.DropStep?)
    ensures Justified(Next(s, st))
  {
    hide DI.Parked;
  }

  /** If every dead-letter put gets its line on file nothing is ever unrecorded: ObligationsConserved
      then leaves delivered, parked and pending only. */
  lemma {:induction false} NothingUnrecorded(run: seq<Sys>, steps: seq<Step>, maxSegmentBytes: int, i: nat)
    requires IsRun(run, steps, maxSegmentBytes) && i < |run|
    requires forall j :: 0 <= j < i ==> PutsWrite(run[j], steps[j])
    ensures Justified(run[i])
  {
    if i == 0 {
    } else {
      NothingUnrecorded(run, steps, maxSegmentBytes, i - 1);
      RunGood(run, steps, maxSegmentBytes, i - 1);
      hide Good, Justified, Enabled, Next, PutsWrite;
      NextJustified(run[i - 1], steps[i - 1]);
    }
  }

  /** The batcher acknowledges a dead-letter even when the queue failed to record it. For a pair with no
      outcome on record, the acknowledgement is justified exactly when the line is written, and before
      that, for a record that reaches its threshold, the regular file is read. */
  lemma DeadLetterJustified(s: Sys, c: Copy, e: Event, reason: string, permanent: bool, io: D.PutIo)
    requires e.id == c.id && !Answered(s, c.id, c.provider)
    ensures Answered(Next(s, DeadLetterStep(c, e, reason, permanent, io)), c.id, c.provider) <==>
            io.writeOk && (DI.PutPoisons(s.dlq, c.provider, c.id, permanent) ==> io.purge.replaceOk)
  {
    DI.PutParksExactly(s.dlq, c.provider, e, reason, permanent, io);
    DI.PurgeMatches(D.List(s.dlq, c.provider), c.id);
    hide D.Put, DI.PutPoisons;
  }

  // ---- Live copies ------------------------------------------------------------------------

  /** Nothing accepted is forgotten by a running process either: as long as no acknowledgement has
      failed since it started and it is not closing, every pair pending for a configured provider has
      a live copy in dispatch, in a queue, in a batch, in flight, on a retry timer or being
      acknowledged, across duplicates and re-appends. */
  lemma NoPairStranded(run: seq<Sys>, steps: seq<Step>, maxSegmentBytes: int, i: nat, id: string, p: string)
    requires IsRun(run, steps, maxSegmentBytes) && i < |run| && !run[i].lossy
    requires Owes(run[i].log.index, id, p) && p in run[i].known
    ensures exists stage :: Copy(id, p, stage) in run[i].copies
  {
    RunGood(run, steps, maxSegmentBytes, i);
  }
}
