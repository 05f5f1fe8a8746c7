/** Replaying dead-lettered events: list them, append each to the log for the one provider, then remove
    the ones that were appended. What this conserves at every point it can be cut, and where not. */
module DlqReplay {
  import opened Types
  import opened WalLog
  import opened WalState
  import opened WalInvariant
  import opened WalRefinement
  import opened WalDurability
  import opened WalGroupCommit
  import D = DlqState
  import DI = DlqInvariant
  import Dlq
  import opened Sink

  /** The two durable stores the handler works on. */
  datatype World = World(log: State, dlq: D.Store)

  predicate AllFit(recs: seq<D.Record>, ios: seq<AppendIo>, provider: string) {
    |ios| == |recs| && forall i :: 0 <= i < |recs| ==> Fits(ios[i], recs[i].event, [provider])
  }

  function Candidates(s: D.Store, provider: string, includePoison: bool): seq<D.Record> {
    if includePoison then D.List(s, provider) + D.ListPoison(s, provider) else D.List(s, provider)
  }

  /** Which records a replay lists: those of the provider's regular file, and if they are asked for those
      of its poison file after them. */
  lemma CandidatesAre(s: D.Store, provider: string, includePoison: bool)
    ensures var regular, poison := provider + ".jsonl", provider + ".poison.jsonl";
            Candidates(s, provider, includePoison) ==
            (if regular in s.files then s.files[regular] else []) +
            (if includePoison && poison in s.files then s.files[poison] else [])
  {
    assert provider + ".poison.jsonl" == provider + ".poison" + ".jsonl";
  }

  /** Which appends succeed. */
  function Oks(log: State, ios: seq<AppendIo>): seq<bool>
  {
    seq(|ios|, i requires 0 <= i < |ios| => Succeeded(log, ios, i))
  }

  /** The ids of the first n records whose append did, or did not, succeed. */
  function Pick(recs: seq<D.Record>, oks: seq<bool>, n: nat, ok: bool): seq<string>
    requires n <= |recs| == |oks|
  {
    if n == 0 then []
    else Pick(recs, oks, n - 1, ok) + (if oks[n - 1] == ok then [recs[n - 1].event.id] else [])
  }

  lemma {:induction false} PickIs(recs: seq<D.Record>, oks: seq<bool>, n: nat, ok: bool, id: string)
    requires n <= |recs| == |oks|
    ensures id in Pick(recs, oks, n, ok) <==> exists i :: 0 <= i < n && recs[i].event.id == id && oks[i] == ok
  {
    if n == 0 {
    } else {
      PickIs(recs, oks, n - 1, ok, id);
    }
  }

  lemma PickNext(recs: seq<D.Record>, oks: seq<bool>, n: nat)
    requires n < |recs| == |oks|
    ensures Pick(recs, oks, n + 1, true) == Pick(recs, oks, n, true) + (if oks[n] then [recs[n].event.id] else [])
    ensures Pick(recs, oks, n + 1, false) == Pick(recs, oks, n, false) + (if oks[n] then [] else [recs[n].event.id])
  {
  }

  /** The ids reported as replayed (ok) or failed. */
  function Ids(log: State, recs: seq<D.Record>, ios: seq<AppendIo>, ok: bool): seq<string>
    requires |recs| == |ios|
  {
    Pick(recs, Oks(log, ios), |recs|, ok)
  }

  /** An id is reported as replayed, or failed, exactly if an append of a record of it was, or was not,
      answered nil. */
  lemma IdsAre(log: State, recs: seq<D.Record>, ios: seq<AppendIo>, ok: bool, id: string)
    requires |recs| == |ios|
    ensures id in Ids(log, recs, ios, ok) <==>
            exists i :: 0 <= i < |recs| && recs[i].event.id == id && AppendOk(LogAfter(log, ios, i), ios[i]) == ok
  {
    PickIs(recs, Oks(log, ios), |recs|, ok, id);
    forall i | 0 <= i < |recs| ensures Oks(log, ios)[i] == AppendOk(LogAfter(log, ios, i), ios[i]) { }
  }

  /** Every point of the procedure at which the process can die: after each append, then after each
      of the two file rewrites of the removal. `stage` 0 is before the removal. */
  datatype Point = Point(appends: nat, stage: nat)

  ghost predicate IsPoint(pt: Point, n: nat) {
    pt.appends <= n && pt.stage <= 2 && (pt.stage > 0 ==> pt.appends == n)
  }

  /** The removal as far as the first `stage` rewrites. */
  function Upto(stage: nat): D.RemoveIo {
    D.RemoveIo(D.REWRITE_OK, D.RewriteIo(stage == 2, true))
  }

  ghost function At(w: World, provider: string, recs: seq<D.Record>, ios: seq<AppendIo>, pt: Point): World
    requires Inv(w.log) && AllFit(recs, ios, provider) && IsPoint(pt, |recs|)
  {
    var gone := Ids(w.log, recs, ios, true);
    World(LogAfter(w.log, ios, pt.appends),
          if pt.stage == 0 || gone == [] then w.dlq
          else D.Remove(w.dlq, provider, gone, Upto(pt.stage)).store)
  }

  /** The event is still parked for the provider, or durably pending for it. */
  ghost predicate Safe(w: World, provider: string, id: string) {
    DI.Parked(w.dlq, provider, id) || Holds(w.log, id, provider)
  }

  ghost predicate AllKeep(batch: seq<Frame>, id: string, provider: string) {
    forall j :: 0 <= j < |batch| ==> Keeps(batch[j].rec, id, provider)
  }

  /** No other request committed meanwhile answers or supersedes the listed events' pairs. */
  ghost predicate Undisturbed(recs: seq<D.Record>, ios: seq<AppendIo>, provider: string) {
    forall i, k :: 0 <= i < |ios| && 0 <= k < |recs| ==> AllKeep(ios[i].batch, recs[k].event.id, provider)
  }

  lemma AppendHolds(log: State, io: AppendIo, e: Event, provider: string)
    requires Inv(log) && Fits(io, e, [provider]) && AppendOk(log, io) && AllKeep(io.batch, e.id, provider)
    ensures Appended(log, io).segments != [] && Held(Appended(log, io), e.id, provider)
  {
    NilReplyHolds(log, io.batch, io.ios, io.syncOk, io.at.value, provider);
  }

  lemma AppendKeepsHeld(log: State, io: AppendIo, id: string, provider: string)
    requires Inv(log) && |io.batch| == |io.ios| && Held(log, id, provider) && AllKeep(io.batch, id, provider)
    ensures Appended(log, io).segments != [] && Held(Appended(log, io), id, provider)
  {
    CommitKeepsHeld(log, io.batch, io.ios, io.syncOk, id, provider);
  }

  lemma {:induction false} StaysHeld(log: State, ios: seq<AppendIo>, id: string, provider: string, from: nat, n: nat)
    requires Inv(log) && from <= n <= |ios| && Paired(ios)
    requires forall k :: 0 <= k < |ios| ==> AllKeep(ios[k].batch, id, provider)
    requires LogAfter(log, ios, from).segments != [] && Held(LogAfter(log, ios, from), id, provider)
    ensures LogAfter(log, ios, n).segments != [] && Held(LogAfter(log, ios, n), id, provider)
  {
    hide Commit, Held;
    if from < n {
      StaysHeld(log, ios, id, provider, from, n - 1);
      var before := LogAfter(log, ios, n - 1);
      assert Inv(before) && Held(before, id, provider) && AllKeep(ios[n - 1].batch, id, provider);
      AppendKeepsHeld(before, ios[n - 1], id, provider);
      assert LogAfter(log, ios, n) == Appended(before, ios[n - 1]);
    }
  }

  lemma AppendedIsHeld(log: State, ios: seq<AppendIo>, e: Event, provider: string, i: nat, n: nat)
    requires Inv(log) && i < n <= |ios| && Paired(ios)
    requires Fits(ios[i], e, [provider]) && Succeeded(log, ios, i)
    requires forall k :: 0 <= k < |ios| ==> AllKeep(ios[k].batch, e.id, provider)
    ensures LogAfter(log, ios, n).segments != [] && Held(LogAfter(log, ios, n), e.id, provider)
  {
    hide Commit, Held;
    var before := LogAfter(log, ios, i);
    assert Inv(before) && AppendOk(before, ios[i]) && AllKeep(ios[i].batch, e.id, provider);
    AppendHolds(before, ios[i], e, provider);
    assert LogAfter(log, ios, i + 1) == Appended(before, ios[i]);
    StaysHeld(log, ios, e.id, provider, i + 1, n);
  }

  /** The records of an id, in a provider's two files. */
  ghost predicate SameRecords(s: D.Store, t: D.Store, provider: string, id: string) {
    forall r: D.Record :: r.event.id == id ==>
      (r in D.List(s, provider) <==> r in D.List(t, provider))
      && (r in D.ListPoison(s, provider) <==> r in D.ListPoison(t, provider))
  }

  /** At every point at which the procedure can be cut, whatever fails, each listed event is in the
      queue or held by the log for the provider. */
  lemma ReplayConserves(w: World, provider: string, includePoison: bool, ios: seq<AppendIo>, pt: Point, k: nat)
    requires Inv(w.log)
    requires var recs := Candidates(w.dlq, provider, includePoison);
             && AllFit(recs, ios, provider) && Undisturbed(recs, ios, provider)
             && IsPoint(pt, |recs|) && k < |recs|
    ensures var recs := Candidates(w.dlq, provider, includePoison);
            Safe(At(w, provider, recs, ios, pt), provider, recs[k].event.id)
  {
    var recs := Candidates(w.dlq, provider, includePoison);
    var id := recs[k].event.id;
    assert recs[k] in recs && DI.Parked(w.dlq, provider, id);
    hide Inv, Held, DI.Parked, D.Remove;
    var gone := Ids(w.log, recs, ios, true);
    if pt.stage > 0 && id in gone {
      ReplayedIsHeld(w.log, provider, recs, ios, k);
    } else if pt.stage > 0 && gone != [] {
      RemoveKeepsOthers(w.dlq, provider, gone, Upto(pt.stage), id);
    }
  }

  /** After the appends, every id reported as replayed is held by the log. */
  lemma ReplayedIsHeld(log: State, provider: string, recs: seq<D.Record>, ios: seq<AppendIo>, k: nat)
    requires Inv(log) && AllFit(recs, ios, provider) && Undisturbed(recs, ios, provider)
    requires k < |recs| && recs[k].event.id in Ids(log, recs, ios, true)
    ensures LogAfter(log, ios, |recs|).segments != [] && Held(LogAfter(log, ios, |recs|), recs[k].event.id, provider)
  {
    hide Commit, Held, Inv, Keeps;
    var id := recs[k].event.id;
    PickIs(recs, Oks(log, ios), |recs|, true, id);
    var i :| 0 <= i < |recs| && recs[i].event.id == id && Oks(log, ios)[i];
    assert Fits(ios[i], recs[i].event, [provider]);
    assert forall j :: 0 <= j < |ios| ==> AllKeep(ios[j].batch, id, provider);
    AppendedIsHeld(log, ios, recs[i].event, provider, i, |recs|);
  }

  lemma RemoveKeepsOthers(s: D.Store, provider: string, gone: seq<string>, io: D.RemoveIo, id: string)
    requires id !in gone
    ensures SameRecords(s, D.Remove(s, provider, gone, io).store, provider, id)
    ensures DI.Parked(s, provider, id) ==> DI.Parked(D.Remove(s, provider, gone, io).store, provider, id)
  {
    DI.RemoveFiles(s, provider, gone, io, provider);
    DI.KeptIs(D.List(s, provider), D.IdSet(gone));
    DI.KeptIs(D.ListPoison(s, provider), D.IdSet(gone));
  }

  /** So after a crash at any of these points, or inside the commit of the next append, a restarted
      process either still lists the event or finds it pending and redelivers it. */
  lemma ReplaySurvivesCrash(
    w: World, provider: string, includePoison: bool, ios: seq<AppendIo>, pt: Point, k: nat, cut: Cut)
    requires Inv(w.log)
    requires var recs := Candidates(w.dlq, provider, includePoison);
             && AllFit(recs, ios, provider) && Undisturbed(recs, ios, provider)
             && IsPoint(pt, |recs|) && k < |recs|
             && CanCrash(At(w, provider, recs, ios, pt).log, cut) && AllKeep(cut.batch, recs[k].event.id, provider)
    ensures var recs := Candidates(w.dlq, provider, includePoison);
            var cutAt := At(w, provider, recs, ios, pt);
            DI.Parked(cutAt.dlq, provider, recs[k].event.id) ||
            Owes(Next(cutAt.log, CrashStep(cut)).index, recs[k].event.id, provider)
  {
    ReplayConserves(w, provider, includePoison, ios, pt, k);
    var recs := Candidates(w.dlq, provider, includePoison);
    var at := At(w, provider, recs, ios, pt);
    hide At, Inv, Held, CanCrash, Next, DI.Parked;
    if Held(at.log, recs[k].event.id, provider) {
      NextStartHasIt(at.log, cut, recs[k].event.id, provider);
    }
  }

  /** Once the procedure has finished, an id that was appended at least once has no record left, and an
      id whose every append failed, or that was not listed, has all of its records. */
  lemma ReplayOutcome(w: World, provider: string, includePoison: bool, ios: seq<AppendIo>, id: string)
    requires Inv(w.log)
    requires AllFit(Candidates(w.dlq, provider, includePoison), ios, provider)
    ensures var recs := Candidates(w.dlq, provider, includePoison);
            var done := At(w, provider, recs, ios, Point(|recs|, 2));
            if id in Ids(w.log, recs, ios, true) then !DI.Parked(done.dlq, provider, id)
            else SameRecords(w.dlq, done.dlq, provider, id)
  {
    var recs := Candidates(w.dlq, provider, includePoison);
    var gone := Ids(w.log, recs, ios, true);
    if id in gone {
      DI.RemoveFiles(w.dlq, provider, gone, D.REMOVE_OK, provider);
      DI.KeptIs(D.List(w.dlq, provider), D.IdSet(gone));
      DI.KeptIs(D.ListPoison(w.dlq, provider), D.IdSet(gone));
    } else if gone != [] {
      RemoveKeepsOthers(w.dlq, provider, gone, D.REMOVE_OK, id);
    }
  }

  // ---- Where it does not conserve ---------------------------------------------------------

  /** The re-append names one provider and replaces the entry, so it keeps the pairs still pending for
      the event exactly when no provider but the replayed one was pending. */
  lemma ReplayDropsOtherProviders(s: State, e: Event, provider: string, len: nat)
    requires Good(s)
    ensures var t := Group(s, [Frame(EventRec(e, [provider]), len)]);
            (forall q :: Owes(s.index, e.id, q) ==> Owes(t.index, e.id, q)) <==>
            (e.id in s.index ==> s.index[e.id].pending <= {provider})
  {
    var f := Frame(EventRec(e, [provider]), len);
    OneCommit(s, f);
    var t := Group(s, [f]);
    assert t.index[e.id].pending == {provider};
    if e.id in s.index && !(s.index[e.id].pending <= {provider}) {
      var q :| q in s.index[e.id].pending && q != provider;
      assert Owes(s.index, e.id, q) && !Owes(t.index, e.id, q);
    }
  }

  // ---- The handler ------------------------------------------------------------------------

  datatype Response =
    | MethodNotAllowed
    | BadRequest
    | ServerError
    | Result(provider: string, replayed: seq<string>, failed: seq<string>)

  class Handler {
    const sink: WalDispatchSink
    const store: Dlq.DLQ
    const knownProviders: set<string>

    constructor (sink: WalDispatchSink, store: Dlq.DLQ, knownProviders: set<string>)
      ensures this.sink == sink && this.store == store && this.knownProviders == knownProviders
    {
      this.sink, this.store, this.knownProviders := sink, store, knownProviders;
    }

    /** Appends each listed record in turn and sorts the ids by the answer. */
    method AppendAll(records: seq<D.Record>, provider: string, ios: seq<AppendIo>)
      returns (replayed: seq<string>, failed: seq<string>)
      requires Inv(sink.wal.St()) && AllFit(records, ios, provider) && provider in sink.disp.queues
      modifies sink.wal, sink.disp
      ensures sink.wal.St() == LogAfter(old(sink.wal.St()), ios, |ios|)
      ensures replayed == Ids(old(sink.wal.St()), records, ios, true)
      ensures failed == Ids(old(sink.wal.St()), records, ios, false)
    {
      hide Commit, Inv;
      replayed, failed := [], [];
      ghost var log, oks := sink.wal.St(), Oks(sink.wal.St(), ios);
      for i := 0 to |records|
        invariant sink.wal.St() == LogAfter(log, ios, i) && Inv(sink.wal.St()) && provider in sink.disp.queues
        invariant replayed == Pick(records, oks, i, true) && failed == Pick(records, oks, i, false)
      {
        assert oks[i] == Succeeded(log, ios, i);
        var answer := sink.Append(records[i].event, [provider], ios[i]);
        PickNext(records, oks, i);
        if answer == Nil {
          replayed := replayed + [records[i].event.id];
        } else {
          failed := failed + [records[i].event.id];
        }
      }
    }

    /** Refuses bad requests without touching anything, and so if a file cannot be read; otherwise
        lists, appends each record for the one provider, and removes the ids that were appended. */
    method ServeHTTP(isPost: bool, provider: string, includePoison: bool, listOk: bool, poisonListOk: bool,
                     ios: seq<AppendIo>, removeIo: D.RemoveIo)
      returns (response: Response)
      requires Inv(sink.wal.St()) && AllFit(Candidates(store.St(), provider, includePoison), ios, provider)
      requires knownProviders == sink.disp.queues.Keys
      modifies sink.wal, sink.disp, store
      ensures !(isPost && provider != "" && provider in knownProviders && listOk && (includePoison ==> poisonListOk)) ==>
                && response == (if !isPost then MethodNotAllowed
                                else if provider == "" || provider !in knownProviders then BadRequest else ServerError)
                && sink.wal.St() == old(sink.wal.St()) && store.St() == old(store.St()) && sink.disp.queues == old(sink.disp.queues)
      ensures isPost && provider != "" && provider in knownProviders && listOk && (includePoison ==> poisonListOk) ==>
                var recs := Candidates(old(store.St()), provider, includePoison);
                var replayed := Ids(old(sink.wal.St()), recs, ios, true);
                && sink.wal.St() == LogAfter(old(sink.wal.St()), ios, |ios|)
                && store.St() == D.Remove(old(store.St()), provider, replayed, removeIo).store
                && response == (if D.Remove(old(store.St()), provider, replayed, removeIo).ok
                                then Result(provider, replayed, Ids(old(sink.wal.St()), recs, ios, false))
                                else ServerError)
    {
      hide Commit, Ids, LogAfter, AllFit, Inv, D.Remove;
      if !isPost {
        return MethodNotAllowed;
      }
      if provider == "" {
        return BadRequest;
      }
      if provider !in knownProviders {
        return BadRequest;
      }
      if !listOk {
        return ServerError;
      }
      var records := D.ReadRecords(store.files, D.RegularPath(provider));
      if includePoison {
        if !poisonListOk {
          return ServerError;
        }
        var poisoned := D.ReadRecords(store.files, D.PoisonPath(provider));
        records := records + poisoned;
      }
      var replayed, failed := AppendAll(records, provider, ios);
      D.NothingToRemove(store.St(), provider, removeIo);
      if |replayed| > 0 {
        var ok := store.Remove(provider, replayed, removeIo);
        if !ok {
          return ServerError;
        }
      }
      return Result(provider, replayed, failed);
    }
  }
}
