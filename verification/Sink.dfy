/** The durability boundary of the ingest path: an event is appended to the log first and handed to the
    dispatcher only once it is durable. */
module Sink {
  import opened Types
  import opened WalLog
  import opened WalState
  import opened WalInvariant
  import opened Dispatch
  import Wal

  /** What the log does during one Append: it commits one batch, in which the append is request `at`,
      along with whatever other callers submitted; None if the append is refused beforehand. */
  datatype AppendIo = AppendIo(batch: seq<Frame>, ios: seq<Io>, syncOk: bool, at: Option<nat>)

  predicate Fits(io: AppendIo, e: Event, providers: seq<string>) {
    && |io.batch| == |io.ios|
    && (io.at.Some? ==> io.at.value < |io.batch| && io.batch[io.at.value].rec == EventRec(e, providers))
  }

  /** The appends of a list of events, each for its own list of providers. */
  ghost predicate AppendsOf(events: seq<Event>, providers: seq<seq<string>>, ios: seq<AppendIo>) {
    |ios| == |events| == |providers| && forall i :: 0 <= i < |events| ==> Fits(ios[i], events[i], providers[i])
  }

  /** A batch the log can be given: it is open, and each request has its I/O outcomes. */
  predicate Commits(log: State, io: AppendIo) {
    log.segments != [] && |io.batch| == |io.ios|
  }

  function Appended(log: State, io: AppendIo): State {
    if Commits(log, io) then Commit(log, io.batch, io.ios, io.syncOk).state else log
  }

  /** The append was submitted and answered nil. */
  predicate AppendOk(log: State, io: AppendIo) {
    && Commits(log, io)
    && io.at.Some? && io.at.value < |io.batch| && Commit(log, io.batch, io.ios, io.syncOk).replies[io.at.value]
  }

  predicate Paired(ios: seq<AppendIo>) {
    forall i :: 0 <= i < |ios| ==> |ios[i].batch| == |ios[i].ios|
  }

  /** The log after the first n appends. */
  function LogAfter(log: State, ios: seq<AppendIo>, n: nat): (t: State)
    requires n <= |ios|
    ensures Inv(log) && Paired(ios) ==> Inv(t)
  {
    if n == 0 then log
    else
      var before := LogAfter(log, ios, n - 1);
      assert Inv(log) && Paired(ios) ==> Inv(Appended(before, ios[n - 1])) by {
        if Inv(log) && Paired(ios) {
          CommitInv(before, ios[n - 1].batch, ios[n - 1].ios, ios[n - 1].syncOk);
        }
      }
      Appended(before, ios[n - 1])
  }

  predicate Succeeded(log: State, ios: seq<AppendIo>, i: nat)
    requires i < |ios|
  {
    AppendOk(LogAfter(log, ios, i), ios[i])
  }

  /** The first n appends were all answered nil, and all name known providers. */
  ghost predicate Done(log: State, ios: seq<AppendIo>, providers: seq<seq<string>>, known: set<string>, n: nat)
    requires n <= |ios| == |providers|
  {
    forall i: nat :: i < n ==> Succeeded(log, ios, i) && Members(providers[i]) <= known
  }

  /** The first n appends were tried: every one went through (`all`), or every one but the last. */
  ghost predicate Tried(log: State, ios: seq<AppendIo>, providers: seq<seq<string>>, known: set<string>, n: nat, all: bool)
    requires n <= |ios| == |providers|
  {
    if all then Done(log, ios, providers, known, n)
    else n > 0 && Done(log, ios, providers, known, n - 1) && !Done(log, ios, providers, known, n)
  }

  /** How many of n tried appends were dispatched: all that are durable. */
  function HandedOver(log: State, ios: seq<AppendIo>, n: nat, all: bool): (k: nat)
    requires n <= |ios|
    ensures k <= n
  {
    if !all && n > 0 && !Succeeded(log, ios, n - 1) then n - 1 else n
  }

  /** The queues once the first n events have been dispatched, each as far as it can be. */
  function Delivered(queues: Queues, events: seq<Event>, providers: seq<seq<string>>, n: nat): Queues
    requires n <= |events| == |providers|
  {
    if n == 0 then queues
    else Enqueued(Delivered(queues, events, providers, n - 1), events[n - 1], Served(providers[n - 1], queues.Keys))
  }

  lemma NothingTried(log: State, ios: seq<AppendIo>, queues: Queues, events: seq<Event>, providers: seq<seq<string>>)
    requires |events| == |providers|
    ensures LogAfter(log, ios, 0) == log && Delivered(queues, events, providers, 0) == queues
    ensures |ios| == |providers| ==> Done(log, ios, providers, queues.Keys, 0)
  {
  }

  /** One append more, in the words of the definitions above. */
  lemma OneMore(
    log: State, ios: seq<AppendIo>, events: seq<Event>, providers: seq<seq<string>>, queues: Queues, n: nat)
    requires n < |ios| == |events| == |providers|
    ensures LogAfter(log, ios, n + 1) == Appended(LogAfter(log, ios, n), ios[n])
    ensures Succeeded(log, ios, n) == AppendOk(LogAfter(log, ios, n), ios[n])
    ensures Done(log, ios, providers, queues.Keys, n + 1) <==>
            Done(log, ios, providers, queues.Keys, n) && Succeeded(log, ios, n) && Members(providers[n]) <= queues.Keys
    ensures Delivered(queues, events, providers, n + 1) ==
            Enqueued(Delivered(queues, events, providers, n), events[n], Served(providers[n], queues.Keys))
  {
    hide Appended, AppendOk, Enqueued, Served;
  }

  datatype Answer = Nil | NotDurable | UnknownProvider

  class WalDispatchSink {
    const wal: Wal.WAL
    const disp: Dispatcher

    constructor (wal: Wal.WAL, disp: Dispatcher)
      ensures this.wal == wal && this.disp == disp
    {
      this.wal, this.disp := wal, disp;
    }

    /** Nothing is dispatched unless the log has answered nil. Then the event is put on the queues of
        the providers named, up to the first unknown one, and the answer is nil if there is none. */
    method Append(event: Event, providers: seq<string>, io: AppendIo) returns (answer: Answer)
      requires Inv(wal.St()) && Fits(io, event, providers)
      modifies wal, disp
      ensures Inv(wal.St()) && wal.St() == Appended(old(wal.St()), io)
      ensures answer == NotDurable <==> !AppendOk(old(wal.St()), io)
      ensures answer == NotDurable <==>
              io.at.None? || !Commit(old(wal.St()), io.batch, io.ios, io.syncOk).replies[io.at.value]
      ensures answer == Nil <==> AppendOk(old(wal.St()), io) && Members(providers) <= old(disp.queues).Keys
      ensures disp.queues.Keys == old(disp.queues).Keys
      ensures disp.queues == if answer == NotDurable then old(disp.queues)
                             else Enqueued(old(disp.queues), event, Served(providers, old(disp.queues).Keys))
    {
      CommitInv(wal.St(), io.batch, io.ios, io.syncOk);
      hide Commit;
      var replies := wal.CommitBatch(io.batch, io.ios, io.syncOk);
      if io.at.None? || !replies[io.at.value] {
        return NotDurable;
      }
      EnqueuedIs(disp.queues, event, Served(providers, disp.queues.Keys), "");
      var ok := disp.Dispatch(event, providers);
      return if ok then Nil else UnknownProvider;
    }
  }
}
