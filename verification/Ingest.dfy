/** The way in: validation, routing, durable append, and the hand-over to one queue per provider. */
module Ingest {
  import opened Types
  import opened WalState
  import opened WalInvariant
  import opened Sink
  import Dispatch

  // ---- Routing ----------------------------------------------------------------------------

  datatype Rule = Rule(eventName: string, providers: seq<string>)

  datatype Router = Router(defaults: seq<string>, rules: seq<Rule>)

  /** The first rule with the event's name, or the default. */
  function FirstMatch(rules: seq<Rule>, name: string, otherwise: seq<string>): seq<string> {
    if rules == [] then otherwise
    else if rules[0].eventName == name then rules[0].providers
    else FirstMatch(rules[1..], name, otherwise)
  }

  function Route(r: Router, e: Event): seq<string> {
    FirstMatch(r.rules, e.eventName, r.defaults)
  }

  /** The startup check of the routing configuration. */
  predicate RoutingValid(r: Router, known: set<string>) {
    && (forall p :: p in r.defaults ==> p in known)
    && (forall i, p :: 0 <= i < |r.rules| && p in r.rules[i].providers ==> p in known)
  }

  method ValidateRouting(r: Router, known: set<string>) returns (ok: bool)
    ensures ok <==> RoutingValid(r, known)
    ensures ok <==> (forall p :: p in r.defaults ==> p in known) && forall rule, p :: rule in r.rules && p in rule.providers ==> p in known
  {
    for i := 0 to |r.defaults|
      invariant forall j :: 0 <= j < i ==> r.defaults[j] in known
    {
      if r.defaults[i] !in known {
        return false;
      }
    }
    for i := 0 to |r.rules|
      invariant forall j, p :: 0 <= j < i && p in r.rules[j].providers ==> p in known
    {
      var route := r.rules[i].providers;
      for j := 0 to |route|
        invariant forall k :: 0 <= k < j ==> route[k] in known
      {
        if route[j] !in known {
          assert route[j] in r.rules[i].providers;
          return false;
        }
      }
    }
    return true;
  }

  /** Rule i is the first one with the name. */
  ghost predicate Chosen(rules: seq<Rule>, name: string, i: nat) {
    i < |rules| && rules[i].eventName == name && forall j :: 0 <= j < i ==> rules[j].eventName != name
  }

  /** Routing is by the first rule with the name, and by default exactly if there is none. */
  lemma {:induction false} FirstMatchIs(rules: seq<Rule>, name: string, otherwise: seq<string>)
    ensures forall i: nat :: Chosen(rules, name, i) ==> FirstMatch(rules, name, otherwise) == rules[i].providers
    ensures (forall i :: 0 <= i < |rules| ==> rules[i].eventName != name) ==> FirstMatch(rules, name, otherwise) == otherwise
  {
    if rules == [] {
    } else if rules[0].eventName != name {
      FirstMatchIs(rules[1..], name, otherwise);
      forall i: nat | Chosen(rules, name, i) ensures FirstMatch(rules, name, otherwise) == rules[i].providers {
        assert Chosen(rules[1..], name, i - 1);
      }
    }
  }

  /** A rule without a name, documented never to match, is chosen exactly for an event without a name
      that no earlier rule matches; hence never for an event that passes validation. */
  lemma NamelessRule(r: Router, i: nat, e: Event, now: int)
    requires i < |r.rules| && r.rules[i].eventName == ""
    ensures Chosen(r.rules, e.eventName, i) <==> e.eventName == "" && forall j :: 0 <= j < i ==> r.rules[j].eventName != ""
    ensures Chosen(r.rules, e.eventName, i) ==> Route(r, e) == r.rules[i].providers
    ensures Validate(e, now) ==> !Chosen(r.rules, e.eventName, i)
  {
    FirstMatchIs(r.rules, e.eventName, r.defaults);
  }

  lemma {:induction false} RouteIsKnown(rules: seq<Rule>, name: string, otherwise: seq<string>, known: set<string>)
    requires forall p :: p in otherwise ==> p in known
    requires forall i, p :: 0 <= i < |rules| && p in rules[i].providers ==> p in known
    ensures forall p :: p in FirstMatch(rules, name, otherwise) ==> p in known
  {
    if rules != [] && rules[0].eventName != name {
      RouteIsKnown(rules[1..], name, otherwise, known);
    }
  }

  // ---- Ingest -----------------------------------------------------------------------------

  const MAX_FUTURE: int := 24 * 3600 * 1_000_000_000

  predicate Validate(e: Event, now: int) {
    e.id != "" && e.customerId != "" && e.eventName != "" && e.timestamp.Some? && e.timestamp.value <= now + MAX_FUTURE
  }

  /** The providers an event is appended for: its own route if it has one, else the router's. */
  function RouteOf(r: Router, e: Event): seq<string> {
    if e.route == [] then Route(r, e) else e.route
  }

  /** The receiver's set of configured providers; without one it does not check. */
  predicate MayRouteTo(known: Option<set<string>>, p: string) {
    known.None? || p in known.value
  }

  predicate Acceptable(r: Router, known: Option<set<string>>, e: Event, now: int) {
    && Validate(e, now) && RouteOf(r, e) != []
    && forall p :: p in RouteOf(r, e) ==> MayRouteTo(known, p)
  }

  /** These are the providers of the event: its own route if it has one, else those of the first rule with
      its name, else the defaults. */
  ghost predicate RoutedTo(r: Router, e: Event, providers: seq<string>) {
    if e.route != [] then providers == e.route
    else
      && (forall i: nat :: Chosen(r.rules, e.eventName, i) ==> providers == r.rules[i].providers)
      && ((forall i :: 0 <= i < |r.rules| ==> r.rules[i].eventName != e.eventName) ==> providers == r.defaults)
  }

  lemma {:induction false} SomeRuleIsChosen(rules: seq<Rule>, name: string, k: nat) returns (i: nat)
    requires k < |rules| && rules[k].eventName == name
    ensures Chosen(rules, name, i)
  {
    if j :| 0 <= j < k && rules[j].eventName == name {
      i := SomeRuleIsChosen(rules, name, j);
    } else {
      i := k;
    }
  }

  /** An event is appended for those providers and no others. */
  lemma RouteOfIs(r: Router, e: Event, providers: seq<string>)
    ensures RoutedTo(r, e, providers) <==> providers == RouteOf(r, e)
  {
    FirstMatchIs(r.rules, e.eventName, r.defaults);
    if e.route == [] && exists k :: 0 <= k < |r.rules| && r.rules[k].eventName == e.eventName {
      var k :| 0 <= k < |r.rules| && r.rules[k].eventName == e.eventName;
      var i := SomeRuleIsChosen(r.rules, e.eventName, k);
    }
  }

  /** Exactly which events the receiver accepts: complete ones, not more than a day ahead, that have
      somewhere to go, and nowhere it does not know. */
  lemma AcceptableExactly(r: Router, known: Option<set<string>>, e: Event, now: int, providers: seq<string>)
    requires RoutedTo(r, e, providers)
    ensures Acceptable(r, known, e, now) <==>
              && |e.id| > 0 && |e.customerId| > 0 && |e.eventName| > 0
              && e.timestamp.Some? && e.timestamp.value - now <= 86_400_000_000_000
              && |providers| > 0 && (known.Some? ==> Members(providers) <= known.value)
  {
    RouteOfIs(r, e, providers);
  }

  /** What the receiver submits: the event itself, for the providers it is routed to. */
  lemma SubmittedAsRouted(r: Router, events: seq<Event>, ios: seq<AppendIo>, i: nat)
    requires AppendsOf(events, RoutesOf(r, events), ios) && i < |events| && ios[i].at.Some?
    ensures ios[i].at.value < |ios[i].batch|
    ensures var rec := ios[i].batch[ios[i].at.value].rec;
            rec.EventRec? && rec.event == events[i] && RoutedTo(r, events[i], rec.providers)
  {
    RouteOfIs(r, events[i], RoutesOf(r, events)[i]);
  }

  ghost predicate AllAcceptable(r: Router, known: Option<set<string>>, events: seq<Event>, now: int) {
    forall i :: 0 <= i < |events| ==> Acceptable(r, known, events[i], now)
  }

  lemma Refused(r: Router, known: Option<set<string>>, events: seq<Event>, i: nat, now: int)
    requires i < |events| && !Acceptable(r, known, events[i], now)
    ensures !AllAcceptable(r, known, events, now)
  {
  }

  datatype Outcome = Accepted | ValidationError | Unavailable

  ghost predicate AllKnown(providers: seq<seq<string>>, known: set<string>) {
    forall i :: 0 <= i < |providers| ==> Members(providers[i]) <= known
  }

  class Receiver {
    const sink: WalDispatchSink
    const router: Router
    const known: Option<set<string>>

    constructor (sink: WalDispatchSink, router: Router, known: Option<set<string>>)
      ensures this.sink == sink && this.router == router && this.known == known
    {
      this.sink, this.router, this.known := sink, router, known;
    }

    /** Validates and routes every event without touching anything: a list of providers for each, or
        None because some event is unacceptable. */
    method RouteAll(events: seq<Event>, now: int) returns (providers: Option<seq<seq<string>>>)
      ensures providers.Some? <==> AllAcceptable(router, known, events, now)
      ensures providers.Some? ==> providers.value == RoutesOf(router, events)
      ensures providers.Some? && known.Some? ==> AllKnown(providers.value, known.value)
      ensures providers.Some? ==> forall i :: 0 <= i < |events| ==> RoutedTo(router, events[i], providers.value[i])
    {
      hide RoutedTo;
      var routes: seq<seq<string>> := [];
      for i := 0 to |events|
        invariant |routes| == i
        invariant forall j :: 0 <= j < i ==> Acceptable(router, known, events[j], now) && routes[j] == RouteOf(router, events[j])
        invariant forall j :: 0 <= j < i ==> RoutedTo(router, events[j], routes[j])
      {
        RouteOfIs(router, events[i], RouteOf(router, events[i]));
        if !Validate(events[i], now) {
          Refused(router, known, events, i, now);
          return None;
        }
        var p := events[i].route;
        if |p| == 0 {
          p := Route(router, events[i]);
        }
        if |p| == 0 {
          Refused(router, known, events, i, now);
          return None;
        }
        if known.Some? {
          for j := 0 to |p|
            invariant forall k :: 0 <= k < j ==> p[k] in known.value
          {
            if p[j] !in known.value {
              assert p[j] in RouteOf(router, events[i]);
              Refused(router, known, events, i, now);
              return None;
            }
          }
        }
        routes := routes + [p];
      }
      return Some(routes);
    }

    /** Either nothing happens, because some event is unacceptable, or the first `sent` events are
        appended in turn, each for its non-empty list of providers: all of them if every append goes
        through, else up to and including the first that does not. Every event that is durable has been
        dispatched. If the receiver knows the configured providers, that dispatch never fails: the only
        append that can fail is one that is not durable. */
    method Ingest(events: seq<Event>, now: int, ios: seq<AppendIo>) returns (outcome: Outcome, ghost sent: nat)
      requires Inv(sink.wal.St()) && AppendsOf(events, RoutesOf(router, events), ios)
      modifies sink.wal, sink.disp
      ensures outcome == ValidationError <==> events == [] || !AllAcceptable(router, known, events, now)
      ensures outcome == ValidationError ==> sent == 0
      ensures sent <= |events| && (outcome == Accepted ==> sent == |events|)
      ensures outcome != ValidationError ==>
                Tried(old(sink.wal.St()), ios, RoutesOf(router, events), old(sink.disp.queues).Keys, sent, outcome == Accepted)
      ensures sink.wal.St() == LogAfter(old(sink.wal.St()), ios, sent)
      ensures sink.disp.queues == Delivered(old(sink.disp.queues), events, RoutesOf(router, events),
                                            HandedOver(old(sink.wal.St()), ios, sent, outcome == Accepted))
      ensures outcome == Unavailable && known == Some(old(sink.disp.queues).Keys) ==>
                HandedOver(old(sink.wal.St()), ios, sent, false) < sent
    {
      NothingTried(sink.wal.St(), ios, sink.disp.queues, events, RoutesOf(router, events));
      hide LogAfter, Tried, Delivered, HandedOver, Inv, AllAcceptable, AllKnown, AppendsOf, RoutesOf;
      if |events| == 0 {
        return ValidationError, 0;
      }
      var providers := RouteAll(events, now);
      if providers.None? {
        return ValidationError, 0;
      }
      ghost var log, keys := sink.wal.St(), sink.disp.queues.Keys;
      var all;
      all, sent := AppendEach(events, providers.value, ios);
      NotDurableIfKnown(log, ios, providers.value, keys, sent, all);
      outcome := if all then Accepted else Unavailable;
    }

    /** Appends the events in turn until one does not go through. */
    method AppendEach(events: seq<Event>, providers: seq<seq<string>>, ios: seq<AppendIo>)
      returns (all: bool, ghost sent: nat)
      requires Inv(sink.wal.St()) && AppendsOf(events, providers, ios)
      modifies sink.wal, sink.disp
      ensures sent <= |events| && sink.wal.St() == LogAfter(old(sink.wal.St()), ios, sent)
      ensures all ==> sent == |events|
      ensures Tried(old(sink.wal.St()), ios, providers, old(sink.disp.queues).Keys, sent, all)
      ensures sink.disp.queues == Delivered(old(sink.disp.queues), events, providers,
                                            HandedOver(old(sink.wal.St()), ios, sent, all))
    {
      NothingTried(sink.wal.St(), ios, sink.disp.queues, events, providers);
      hide Commit, Inv, Done, LogAfter, Delivered, Appended, AppendOk, Succeeded, Dispatch.Served, Dispatch.Enqueued;
      ghost var log, queues := sink.wal.St(), sink.disp.queues;
      for i := 0 to |events|
        invariant sink.wal.St() == LogAfter(log, ios, i) && Inv(sink.wal.St())
        invariant Done(log, ios, providers, queues.Keys, i)
        invariant sink.disp.queues == Delivered(queues, events, providers, i) && sink.disp.queues.Keys == queues.Keys
      {
        OneMore(log, ios, events, providers, queues, i);
        var answer := sink.Append(events[i], providers[i], ios[i]);
        if answer != Nil {
          return false, i + 1;
        }
      }
      return true, |events|;
    }
  }

  /** With known providers only, what did not go through was not durable. */
  lemma NotDurableIfKnown(log: State, ios: seq<AppendIo>, providers: seq<seq<string>>, known: set<string>, n: nat, all: bool)
    requires n <= |ios| == |providers| && Tried(log, ios, providers, known, n, all)
    ensures !all && AllKnown(providers, known) ==> HandedOver(log, ios, n, all) < n
  {
    hide Succeeded;
  }

  function RoutesOf(r: Router, events: seq<Event>): (routes: seq<seq<string>>)
    ensures |routes| == |events|
  {
    seq(|events|, i requires 0 <= i < |events| => RouteOf(r, events[i]))
  }

  /** An event the routing accepts from a client without a route of its own can only be refused for
      having nowhere to go: with a validated configuration the router never names an unknown one. */
  lemma ValidatedRouterNeverUnknown(r: Router, known: Option<set<string>>, e: Event, now: int)
    requires known.Some? && RoutingValid(r, known.value) && e.route == []
    ensures Acceptable(r, known, e, now) <==> Validate(e, now) && Route(r, e) != []
  {
    RouteIsKnown(r.rules, e.eventName, r.defaults, known.value);
  }
}
