/** Handing events over to one queue per provider, live and at startup. */
module Dispatch {
  import opened Types
  import opened Seqs
  import opened WalLog
  import Wal

  /** How often a list mentions a provider. */
  function Mentions(providers: seq<string>, p: string): nat {
    multiset(providers)[p]
  }

  function Repeat(e: Event, n: nat): seq<Event> {
    seq(n, _ => e)
  }

  /** The events listed for p, once per mention, in the order of the entries. */
  function Arrivals(entries: seq<Wal.PendingEntry>, p: string): seq<Event> {
    if entries == [] then []
    else
      var n := |entries| - 1;
      Arrivals(entries[..n], p) + Repeat(entries[n].event, Mentions(entries[n].pending, p))
  }

  type Queues = map<string, seq<Event>>

  /** The event enqueued on each provider of a list that has a queue, in turn. */
  function Enqueued(queues: Queues, e: Event, providers: seq<string>): Queues {
    if providers == [] then queues
    else
      var n := |providers| - 1;
      var before := Enqueued(queues, e, providers[..n]);
      if providers[n] in before then before[providers[n] := before[providers[n]] + [e]] else before
  }

  function EnqueuedAll(queues: Queues, entries: seq<Wal.PendingEntry>): Queues {
    if entries == [] then queues
    else
      var n := |entries| - 1;
      Enqueued(EnqueuedAll(queues, entries[..n]), entries[n].event, entries[n].pending)
  }

  lemma RepeatNext(e: Event, providers: seq<string>, p: string)
    requires providers != []
    ensures var n := |providers| - 1;
            Repeat(e, Mentions(providers, p)) ==
            Repeat(e, Mentions(providers[..n], p)) + (if p == providers[n] then [e] else [])
  {
    SplitLast(providers);
  }

  /** No queue comes or goes, and each one gets the event once per mention and nothing else. */
  lemma {:induction false} EnqueuedIs(queues: Queues, e: Event, providers: seq<string>, p: string)
    ensures Enqueued(queues, e, providers).Keys == queues.Keys
    ensures p in queues ==> Enqueued(queues, e, providers)[p] == queues[p] + Repeat(e, Mentions(providers, p))
  {
    if providers == [] {
    } else {
      var n := |providers| - 1;
      EnqueuedIs(queues, e, providers[..n], p);
      RepeatNext(e, providers, p);
      if p in queues {
        Assoc(queues[p], Repeat(e, Mentions(providers[..n], p)), [e]);
      }
    }
  }

  /** Startup adds to each queue exactly the events pending for its provider. */
  lemma {:induction false} EnqueuedAllIs(queues: Queues, entries: seq<Wal.PendingEntry>, p: string)
    ensures EnqueuedAll(queues, entries).Keys == queues.Keys
    ensures p in queues ==> EnqueuedAll(queues, entries)[p] == queues[p] + Arrivals(entries, p)
  {
    if entries == [] {
    } else {
      var n := |entries| - 1;
      EnqueuedAllIs(queues, entries[..n], p);
      EnqueuedIs(EnqueuedAll(queues, entries[..n]), entries[n].event, entries[n].pending, p);
      if p in queues {
        Assoc(queues[p], Arrivals(entries[..n], p), Repeat(entries[n].event, Mentions(entries[n].pending, p)));
      }
    }
  }

  /** The providers of a list before the first one without a queue. */
  function Served(providers: seq<string>, known: set<string>): (r: seq<string>)
    ensures r == providers <==> Members(providers) <= known
    ensures Members(r) <= known
  {
    if providers == [] || providers[0] !in known then
      assert providers != [] ==> providers[0] in Members(providers);
      []
    else
      var rest := Served(providers[1..], known);
      assert providers == [providers[0]] + providers[1..];
      assert Members(providers) == {providers[0]} + Members(providers[1..]);
      assert Members([providers[0]] + rest) == {providers[0]} + Members(rest);
      assert [providers[0]] + rest == providers ==> rest == providers[1..];
      [providers[0]] + rest
  }

  /** Served is the longest prefix of known providers. */
  lemma {:induction false} ServedIs(providers: seq<string>, known: set<string>, n: nat)
    requires n <= |providers| && forall j :: 0 <= j < n ==> providers[j] in known
    requires n < |providers| ==> providers[n] !in known
    ensures Served(providers, known) == providers[..n]
  {
    if n == 0 {
    } else {
      ServedIs(providers[1..], known, n - 1);
      TakeCons(providers, n - 1);
    }
  }

  class Dispatcher {
    /** One queue per configured provider, oldest first. */
    var queues: Queues

    /** Enqueues on the providers in the order they are named, stopping at the first unknown one. */
    method Dispatch(event: Event, providers: seq<string>) returns (ok: bool)
      modifies this
      ensures queues == Enqueued(old(queues), event, Served(providers, old(queues).Keys))
      ensures ok <==> Members(providers) <= old(queues).Keys
    {
      for i := 0 to |providers|
        invariant queues == Enqueued(old(queues), event, providers[..i]) && queues.Keys == old(queues).Keys
        invariant forall j :: 0 <= j < i ==> providers[j] in queues
      {
        TakeTake(providers, i, i + 1);
        var p := providers[i];
        if p !in queues {
          ServedIs(providers, queues.Keys, i);
          return false;
        }
        queues := queues[p := queues[p] + [event]];
      }
      ServedIs(providers, queues.Keys, |providers|);
      TakeAll(providers);
      return true;
    }

    /** Startup: every pending pair of a configured provider is enqueued, the others are skipped and
        stay pending. */
    method ReplayPending(entries: seq<Wal.PendingEntry>)
      modifies this
      ensures queues == EnqueuedAll(old(queues), entries)
    {
      for i := 0 to |entries|
        invariant queues == EnqueuedAll(old(queues), entries[..i])
      {
        TakeTake(entries, i, i + 1);
        EnqueueKnown(entries[i].event, entries[i].pending);
      }
      TakeAll(entries);
    }

    method EnqueueKnown(event: Event, pending: seq<string>)
      modifies this
      ensures queues == Enqueued(old(queues), event, pending)
    {
      for j := 0 to |pending|
        invariant queues == Enqueued(old(queues), event, pending[..j])
      {
        TakeTake(pending, j, j + 1);
        if pending[j] !in queues {
          continue;
        }
        queues := queues[pending[j] := queues[pending[j]] + [event]];
      }
      TakeAll(pending);
    }
  }

  /** Each pending list names a provider at most once, so a replayed pair is enqueued exactly once. */
  lemma {:induction false} ListedOnce(providers: seq<string>, pending: set<string>, p: string)
    requires Wal.Lists(providers, pending)
    ensures Mentions(providers, p) == if p in pending then 1 else 0
  {
    if p in pending {
      var i :| 0 <= i < |providers| && providers[i] == p;
      assert providers == providers[..i] + [p] + providers[i + 1..];
      assert p !in providers[..i] && p !in providers[i + 1..];
      assert multiset(providers) == multiset(providers[..i]) + multiset{p} + multiset(providers[i + 1..]);
    }
  }

  // ---- Startup ----------------------------------------------------------------------------

  /** How many of the events have the id. */
  function CountId(events: seq<Event>, id: string): nat {
    if events == [] then 0
    else
      var n := |events| - 1;
      CountId(events[..n], id) + (if events[n].id == id then 1 else 0)
  }

  lemma {:induction false} CountIdConcat(a: seq<Event>, b: seq<Event>, id: string)
    ensures CountId(a + b, id) == CountId(a, id) + CountId(b, id)
  {
    if b == [] {
      assert a + b == a;
    } else {
      assert (a + b)[..|a + b| - 1] == a + b[..|b| - 1];
      CountIdConcat(a, b[..|b| - 1], id);
    }
  }

  lemma {:induction false} CountIdRepeat(e: Event, n: nat, id: string)
    ensures CountId(Repeat(e, n), id) == if e.id == id then n else 0
  {
    if n == 0 {
    } else {
      assert Repeat(e, n)[..n - 1] == Repeat(e, n - 1);
      CountIdRepeat(e, n - 1, id);
    }
  }

  lemma ArrivalsNext(entries: seq<Wal.PendingEntry>, id: string, p: string, m: nat)
    requires m < |entries|
    ensures CountId(Arrivals(entries[..m + 1], p), id) ==
            CountId(Arrivals(entries[..m], p), id) + (if entries[m].event.id == id then Mentions(entries[m].pending, p) else 0)
  {
    TakeTake(entries, m, m + 1);
    CountIdConcat(Arrivals(entries[..m], p), Repeat(entries[m].event, Mentions(entries[m].pending, p)), id);
    CountIdRepeat(entries[m].event, Mentions(entries[m].pending, p), id);
  }

  lemma NewAmong(xs: seq<string>, s: set<string>, m: nat)
    requires Wal.Lists(xs, s) && m < |xs|
    ensures xs[m] !in xs[..m] && forall x :: x in xs[..m + 1] <==> x in xs[..m] || x == xs[m]
  {
    assert xs[..m + 1] == xs[..m] + [xs[m]];
  }

  lemma {:induction false} ArrivalsOf(ix: Index, entries: seq<Wal.PendingEntry>, id: string, p: string, n: nat)
    requires Wal.SnapshotOf(entries, ix.Keys, ix) && n <= |entries|
    ensures CountId(Arrivals(entries[..n], p), id) == if id in Wal.Ids(entries)[..n] && Owes(ix, id, p) then 1 else 0
  {
    if n == 0 {
    } else {
      var m := n - 1;
      ArrivalsOf(ix, entries, id, p, m);
      ArrivalsNext(entries, id, p, m);
      assert Wal.EntryOf(entries[m], ix) && Wal.Ids(entries)[m] == entries[m].event.id;
      hide CountId, Arrivals, Mentions;
      NewAmong(Wal.Ids(entries), ix.Keys, m);
      ListedOnce(entries[m].pending, ix[entries[m].event.id].pending, p);
      hide Wal.Lists, Wal.Ids;
    }
  }

  /** At startup the queue of a provider is given, of each id, exactly one event if the pair is pending
      in the replayed index and none otherwise, whatever order the snapshot lists them in. */
  lemma StartupEnqueuesOnce(ix: Index, entries: seq<Wal.PendingEntry>, id: string, p: string)
    requires Wal.SnapshotOf(entries, ix.Keys, ix)
    ensures CountId(Arrivals(entries, p), id) == if Owes(ix, id, p) then 1 else 0
  {
    ArrivalsOf(ix, entries, id, p, |entries|);
    TakeAll(Wal.Ids(entries));
    TakeAll(entries);
  }
}
