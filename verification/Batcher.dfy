/** The per-provider batcher: the queue loop with its bounded flushes, what one flush does to each event
    of its batch, the back-off of retries and how long they can go on. Time is in nanosecond ticks. */
module Batcher {
  import opened Types
  import opened Seqs

  datatype Queued = Queued(event: Event, attempt: nat, firstQueue: int)

  // ---- The queue loop ---------------------------------------------------------------------

  const MAX_IN_FLIGHT := 4

  /** What can happen next: the loop's select yields an event, the linger timer, or Close with what is
      still in the channel; or a flush that was started comes to its end. */
  datatype Input = Recv(q: Queued) | Linger | Close(drained: seq<Queued>) | FlushDone

  datatype Trigger = BySize | ByLinger | ByClose(drained: nat)

  datatype Flush = Flush(batch: seq<Queued>, trigger: Trigger)

  /** The loop: `waiting` is a batch it has cut and cannot start for want of a slot. It does not get
      back to its select until it can. `running` counts the slots taken. */
  datatype Loop = Loop(pending: seq<Queued>, waiting: Option<Flush>, spawned: seq<Flush>, running: nat, closed: bool)

  /** Cut the pending events into a batch, if there are any, and start its flush if there is a slot. */
  function Cut(l: Loop, t: Trigger): Loop {
    var f := Flush(l.pending, t);
    if l.pending == [] then l
    else if l.running < MAX_IN_FLIGHT then l.(pending := [], spawned := l.spawned + [f], running := l.running + 1)
    else l.(pending := [], waiting := Some(f))
  }

  predicate Possible(l: Loop, x: Input) {
    if x.FlushDone? then l.running > 0 else !l.closed && l.waiting.None?
  }

  function Turn(l: Loop, x: Input, maxBatch: nat): Loop
    requires Possible(l, x)
  {
    match x
    case Recv(q) =>
      var m := l.(pending := l.pending + [q]);
      if |m.pending| >= maxBatch then Cut(m, BySize) else m
    case Linger => Cut(l, ByLinger)
    case Close(drained) => Cut(l.(pending := l.pending + drained, closed := true), ByClose(|drained|))
    case FlushDone =>
      if l.waiting.Some? then l.(waiting := None, spawned := l.spawned + [l.waiting.value]) else l.(running := l.running - 1)
  }

  /** The loop after a history, None if the history cannot happen. */
  function After(script: seq<Input>, maxBatch: nat): Option<Loop> {
    if script == [] then Some(Loop([], None, [], 0, false))
    else
      var n := |script| - 1;
      match After(script[..n], maxBatch)
      case None => None
      case Some(l) => if Possible(l, script[n]) then Some(Turn(l, script[n], maxBatch)) else None
  }

  function ReceivedIn(x: Input): seq<Queued> {
    match x
    case Recv(q) => [q]
    case Close(drained) => drained
    case _ => []
  }

  function Received(script: seq<Input>): seq<Queued> {
    if script == [] then [] else Received(script[..|script| - 1]) + ReceivedIn(script[|script| - 1])
  }

  function Batches(flushes: seq<Flush>): seq<Queued> {
    if flushes == [] then [] else Batches(flushes[..|flushes| - 1]) + flushes[|flushes| - 1].batch
  }

  lemma BatchesSnoc(flushes: seq<Flush>, f: Flush)
    ensures Batches(flushes + [f]) == Batches(flushes) + f.batch
  {
    TakeWithin(flushes, [f], |flushes|);
    TakeAll(flushes);
  }

  /** How many flushes have come to their end. */
  function Ended(script: seq<Input>): nat {
    if script == [] then 0
    else
      var n := |script| - 1;
      Ended(script[..n]) + (if script[n].FlushDone? then 1 else 0)
  }

  predicate WellTriggered(f: Flush, maxBatch: nat) {
    match f.trigger
    case BySize => |f.batch| == maxBatch
    case ByLinger => 1 <= |f.batch| < maxBatch
    case ByClose(drained) => 1 <= |f.batch| < maxBatch + drained
  }

  /** Where everything received is: in the batches started, in spawn order, then in the one that waits,
      then pending. */
  function Accounted(l: Loop): seq<Queued> {
    Batches(l.spawned) + (if l.waiting.Some? then l.waiting.value.batch else []) + l.pending
  }

  ghost predicate LoopInv(l: Loop, received: seq<Queued>, ended: nat, maxBatch: nat) {
    && Accounted(l) == received
    && l.running == |l.spawned| - ended && l.running <= MAX_IN_FLIGHT
    && (l.waiting.Some? ==> l.running == MAX_IN_FLIGHT && l.pending == [] && WellTriggered(l.waiting.value, maxBatch))
    && (forall f :: f in l.spawned ==> WellTriggered(f, maxBatch))
    && |l.pending| < maxBatch && (l.closed ==> l.pending == [])
  }

  lemma CutKeeps(l: Loop, t: Trigger, maxBatch: nat)
    requires maxBatch > 0 && l.waiting.None? && l.running <= MAX_IN_FLIGHT
    requires l.pending != [] ==> WellTriggered(Flush(l.pending, t), maxBatch)
    requires forall f :: f in l.spawned ==> WellTriggered(f, maxBatch)
    ensures var c := Cut(l, t);
            && Accounted(c) == Accounted(l) && c.pending == [] && c.closed == l.closed
            && c.running - |c.spawned| == l.running - |l.spawned| && c.running <= MAX_IN_FLIGHT
            && (c.waiting.Some? ==> c.running == MAX_IN_FLIGHT && WellTriggered(c.waiting.value, maxBatch))
            && forall f :: f in c.spawned ==> WellTriggered(f, maxBatch)
  {
    BatchesSnoc(l.spawned, Flush(l.pending, t));
    hide Batches, WellTriggered;
  }

  /** At every moment of every possible history everything received is accounted for in order; as many
      flushes run as were started and have not ended, at most four; a batch waits only while four run;
      and batches have the size their trigger allows. */
  lemma {:induction false} LoopKeeps(script: seq<Input>, maxBatch: nat)
    requires maxBatch > 0 && After(script, maxBatch).Some?
    ensures var l := After(script, maxBatch).value;
            LoopInv(l, Received(script), Ended(script), maxBatch) && l.running <= 4 && (l.waiting.Some? ==> l.running == 4)
  {
    if script == [] {
    } else {
      var n := |script| - 1;
      LoopKeeps(script[..n], maxBatch);
      TurnKeeps(After(script[..n], maxBatch).value, script[n], Received(script[..n]), Ended(script[..n]), maxBatch);
    }
  }

  lemma TurnKeeps(l: Loop, x: Input, received: seq<Queued>, ended: nat, maxBatch: nat)
    requires maxBatch > 0 && LoopInv(l, received, ended, maxBatch) && Possible(l, x)
    ensures LoopInv(Turn(l, x, maxBatch), received + ReceivedIn(x), ended + (if x.FlushDone? then 1 else 0), maxBatch)
  {
    match x
    case Recv(q) =>
      Assoc(Batches(l.spawned) + [], l.pending, [q]);
      if |l.pending| + 1 >= maxBatch {
        CutKeeps(l.(pending := l.pending + [q]), BySize, maxBatch);
      }
    case Linger =>
      if l.pending != [] {
        CutKeeps(l, ByLinger, maxBatch);
      }
    case Close(drained) =>
      Assoc(Batches(l.spawned) + [], l.pending, drained);
      CutKeeps(l.(pending := l.pending + drained, closed := true), ByClose(|drained|), maxBatch);
    case FlushDone =>
      if l.waiting.Some? {
        BatchesSnoc(l.spawned, l.waiting.value);
      }
  }

  /** The beginning of a history that can happen can happen. */
  lemma {:induction false} EveryMoment(script: seq<Input>, i: nat, maxBatch: nat)
    requires i <= |script| && After(script, maxBatch).Some?
    ensures After(script[..i], maxBatch).Some?
  {
    if i == |script| {
      TakeAll(script);
    } else {
      EveryMoment(script[..|script| - 1], i, maxBatch);
      TakeTake(script, i, |script| - 1);
    }
  }

  lemma AfterNext(script: seq<Input>, i: nat, maxBatch: nat)
    requires i < |script| && After(script[..i], maxBatch).Some?
    ensures var l := After(script[..i], maxBatch).value;
            After(script[..i + 1], maxBatch) == if Possible(l, script[i]) then Some(Turn(l, script[i], maxBatch)) else None
  {
    TakeTake(script, i, i + 1);
  }

  /** The batches cut so far, in order: those started, then the one that waits for a slot. */
  function CutSoFar(l: Loop): seq<Flush> {
    l.spawned + (if l.waiting.Some? then [l.waiting.value] else [])
  }

  lemma CutSoFarNext(l: Loop, t: Trigger)
    requires l.waiting.None?
    ensures CutSoFar(Cut(l, t)) == CutSoFar(l) + (if l.pending == [] then [] else [Flush(l.pending, t)])
  {
  }

  /** What can come after a history, and what it does: a batch is cut when an event fills it, of all that
      is pending when the linger timer fires, and of all that is left on Close; never otherwise, and never
      an empty one. Nothing is received after Close or while a batch waits for a slot. */
  lemma NextInput(script: seq<Input>, x: Input, maxBatch: nat)
    requires After(script, maxBatch).Some?
    ensures var l, next := After(script, maxBatch).value, After(script + [x], maxBatch);
            && (next.Some? <==> if x.FlushDone? then l.running > 0 else !l.closed && l.waiting.None?)
            && (next.Some? ==>
                  var m := next.value;
                  var held := l.pending + (if x.Recv? then [x.q] else if x.Close? then x.drained else []);
                  var cuts := !x.FlushDone? && held != [] && (x.Recv? ==> |held| >= maxBatch);
                  && (m.closed <==> l.closed || x.Close?)
                  && m.pending == (if cuts then [] else held)
                  && |CutSoFar(m)| == |CutSoFar(l)| + (if cuts then 1 else 0) && CutSoFar(l) <= CutSoFar(m)
                  && (cuts ==> CutSoFar(m)[|CutSoFar(l)|].batch == held))
  {
    var l := After(script, maxBatch).value;
    TakeWithin(script, [x], |script|);
    TakeAll(script);
    if Possible(l, x) {
      match x
      case Recv(q) => CutSoFarNext(l.(pending := l.pending + [q]), BySize);
      case Linger => CutSoFarNext(l, ByLinger);
      case Close(drained) => CutSoFarNext(l.(pending := l.pending + drained, closed := true), ByClose(|drained|));
      case FlushDone =>
    }
  }

  /** When the linger timer fires nothing stays pending: everything received by then is in a batch that
      was started, or in the one that waits while four run. */
  lemma LingerLeavesNothing(script: seq<Input>, maxBatch: nat)
    requires maxBatch > 0 && After(script + [Linger], maxBatch).Some?
    ensures var l := After(script + [Linger], maxBatch).value;
            && l.pending == []
            && Received(script + [Linger]) == Batches(CutSoFar(l))
            && (l.waiting.Some? ==> l.running == 4)
  {
    var now := script + [Linger];
    EveryMoment(now, |script|, maxBatch);
    TakeWithin(script, [Linger], |script|);
    TakeAll(script);
    NextInput(script, Linger, maxBatch);
    LoopKeeps(now, maxBatch);
    var l := After(now, maxBatch).value;
    if l.waiting.Some? {
      BatchesSnoc(l.spawned, l.waiting.value);
    } else {
      assert CutSoFar(l) == l.spawned;
    }
    assert Accounted(l) == Batches(CutSoFar(l)) + [];
  }

  /** The batches of a history as they would be if there were slots for all of them. */
  datatype Gathering = Gathering(batches: seq<seq<Queued>>, rest: seq<Queued>)

  function Gather(script: seq<Input>, maxBatch: nat): Gathering {
    if script == [] then Gathering([], [])
    else
      var n := |script| - 1;
      var g := Gather(script[..n], maxBatch);
      var held := g.rest + ReceivedIn(script[n]);
      if script[n].FlushDone? || held == [] || (script[n].Recv? && |held| < maxBatch) then g.(rest := held)
      else Gathering(g.batches + [held], [])
  }

  function Contents(flushes: seq<Flush>): seq<seq<Queued>> {
    seq(|flushes|, i requires 0 <= i < |flushes| => flushes[i].batch)
  }

  /** Slots delay batches and change nothing else: however many flushes run and whenever they end, the
      batches cut are those of the history without slots, started in order, four more than have ended at
      most and no fewer than that while there are any. */
  lemma {:induction false} SlotsOnlyDelay(script: seq<Input>, maxBatch: nat)
    requires maxBatch > 0 && After(script, maxBatch).Some?
    ensures var l, g := After(script, maxBatch).value, Gather(script, maxBatch);
            && Contents(CutSoFar(l)) == g.batches && l.pending == g.rest
            && |l.spawned| == if |g.batches| < Ended(script) + 4 then |g.batches| else Ended(script) + 4
  {
    if script != [] {
      var n := |script| - 1;
      SplitLast(script);
      SlotsOnlyDelay(script[..n], maxBatch);
      NextInput(script[..n], script[n], maxBatch);
      LoopKeeps(script, maxBatch);
      hide After, Accounted, Received, Ended;
      ContentsNext(CutSoFar(After(script[..n], maxBatch).value), CutSoFar(After(script, maxBatch).value));
    }
  }

  lemma ContentsNext(a: seq<Flush>, b: seq<Flush>)
    requires a <= b && |b| <= |a| + 1
    ensures Contents(b) == Contents(a) + (if |b| > |a| then [b[|a|].batch] else [])
  {
  }

  /** The program's loop, over a history for as long as it can happen. */
  method Run(maxBatchSize: int, script: seq<Input>)
    returns (taken: nat, pending: seq<Queued>, waiting: Option<Flush>, spawned: seq<Flush>, running: nat, closed: bool)
    ensures taken <= |script|
    ensures After(script[..taken], if maxBatchSize <= 0 then 500 else maxBatchSize) ==
            Some(Loop(pending, waiting, spawned, running, closed))
    ensures taken < |script| ==> !Possible(Loop(pending, waiting, spawned, running, closed), script[taken])
  {
    var maxBatch := maxBatchSize;
    if maxBatch <= 0 {
      maxBatch := 500;
    }
    pending, waiting, spawned, running, closed := [], None, [], 0, false;
    assert After(script[..0], maxBatch) == Some(Loop([], None, [], 0, false));
    hide After;
    for i := 0 to |script|
      invariant After(script[..i], maxBatch) == Some(Loop(pending, waiting, spawned, running, closed))
      invariant running <= MAX_IN_FLIGHT && (waiting.Some? ==> running == MAX_IN_FLIGHT)
    {
      AfterNext(script, i, maxBatch);
      taken := i;
      if script[i].FlushDone? {
        if running == 0 {
          return;
        }
        running := running - 1;
      } else {
        if closed || waiting.Some? {
          return;
        }
        var flush, trigger := true, ByLinger;
        match script[i] {
          case Recv(q) =>
            pending := pending + [q];
            flush, trigger := |pending| >= maxBatch, BySize;
          case Linger =>
          case Close(drained) =>
            pending := pending + drained;
            trigger, closed := ByClose(|drained|), true;
        }
        if flush && |pending| != 0 {
          waiting, pending := Some(Flush(pending, trigger)), [];
        }
      }
      if waiting.Some? && running < MAX_IN_FLIGHT {
        spawned, running, waiting := spawned + [waiting.value], running + 1, None;
      }
    }
    TakeAll(script);
    taken := |script|;
  }

  // ---- One flush --------------------------------------------------------------------------

  /** What the adapter reports of one event; what a whole send came to. */
  datatype EventResult = EventResult(eventId: string, disposition: Disposition)

  datatype SendOutcome = SendFailed(classified: Disposition) | Sent(results: seq<EventResult>)

  /** What a flush does, in order: records a dead-letter, acknowledges, or schedules a retry. */
  datatype Effect =
    | PutDeadLetter(event: Event, permanent: bool)
    | AckWal(eventId: string, disposition: Disposition)
    | Reenqueue(next: Queued)

  /** What becomes of one item. */
  datatype Verdict = Delivered | DeadLettered(permanent: bool) | Retried

  function Judge(q: Queued, d: Disposition, now: int, maxElapsed: int): Verdict {
    match d
    case Ok => Delivered
    case DeadLetter => DeadLettered(true)
    case _ => if now - q.firstQueue >= maxElapsed then DeadLettered(false) else Retried
  }

  function EffectsOf(q: Queued, v: Verdict): seq<Effect> {
    match v
    case Delivered => [AckWal(q.event.id, Ok)]
    case DeadLettered(permanent) => [PutDeadLetter(q.event, permanent), AckWal(q.event.id, DeadLetter)]
    case Retried => [Reenqueue(q.(attempt := q.attempt + 1))]
  }

  function AllEffects(batch: seq<Queued>, vs: seq<Verdict>): seq<Effect>
    requires |batch| == |vs|
  {
    if batch == [] then []
    else
      var n := |batch| - 1;
      AllEffects(batch[..n], vs[..n]) + EffectsOf(batch[n], vs[n])
  }

  /** r is the last report of its id. */
  ghost predicate LastReport(results: seq<EventResult>, k: nat, id: string) {
    && k < |results| && results[k].eventId == id
    && forall j :: k < j < |results| ==> results[j].eventId != id
  }

  ghost predicate Unreported(results: seq<EventResult>, id: string) {
    forall j :: 0 <= j < |results| ==> results[j].eventId != id
  }

  method ByID(results: seq<EventResult>) returns (byID: map<string, EventResult>)
    ensures forall id :: id in byID <==> !Unreported(results, id)
    ensures forall k: nat, id :: LastReport(results, k, id) ==> id in byID && byID[id] == results[k]
  {
    byID := map[];
    for i := 0 to |results|
      invariant forall id :: id in byID <==> !Unreported(results[..i], id)
      invariant forall k: nat, id :: LastReport(results[..i], k, id) ==> id in byID && byID[id] == results[k]
    {
      ghost var seen, next := results[..i], results[..i + 1];
      assert next == seen + [results[i]];
      forall id ensures Unreported(next, id) <==> Unreported(seen, id) && id != results[i].eventId {
        if Unreported(next, id) {
          forall j | 0 <= j < |seen| ensures seen[j].eventId != id { assert next[j] == seen[j]; }
          assert next[i].eventId != id;
        }
      }
      forall k: nat, id | LastReport(next, k, id) ensures if k == i then id == results[i].eventId else
        LastReport(seen, k, id) && id != results[i].eventId
      {
        if k != i {
          assert next[i].eventId != id;
          forall j | k < j < |seen| ensures seen[j].eventId != id { assert next[j] == seen[j]; }
        }
      }
      byID := byID[results[i].eventId := results[i]];
    }
    TakeAll(results);
  }

  /** The last report of an id decides; an id that is not reported was accepted. */
  function Reported(results: seq<EventResult>, id: string): Disposition {
    if results == [] then Ok
    else
      var n := |results| - 1;
      if results[n].eventId == id then results[n].disposition else Reported(results[..n], id)
  }

  /** Reported is the disposition of the last report, and acceptance if there is none. */
  lemma {:induction false} ReportedIsLast(results: seq<EventResult>, id: string) returns (k: nat)
    ensures Unreported(results, id) ==> Reported(results, id) == Ok
    ensures !Unreported(results, id) ==> LastReport(results, k, id) && Reported(results, id) == results[k].disposition
  {
    k := 0;
    if results == [] {
    } else {
      var n := |results| - 1;
      if results[n].eventId == id {
        k := n;
      } else {
        k := ReportedIsLast(results[..n], id);
        ReportedBefore(results, id, n, k);
      }
    }
  }

  /** A last result of another id changes nothing for this one. */
  lemma ReportedBefore(results: seq<EventResult>, id: string, n: nat, k: nat)
    requires |results| == n + 1 && results[n].eventId != id
    ensures Unreported(results, id) <==> Unreported(results[..n], id)
    ensures LastReport(results[..n], k, id) ==> LastReport(results, k, id)
  {
    assert results == results[..n] + [results[n]];
  }

  /** How the whole batch went: it could not be encoded, the send failed, or results came back. */
  datatype Exchange = EncodeError | Answered(send: SendOutcome)

  /** The verdict on one item of a batch. */
  function VerdictOf(q: Queued, x: Exchange, now: int, maxElapsed: int): Verdict {
    match x
    case EncodeError => DeadLettered(true)
    case Answered(SendFailed(d)) => Judge(q, d, now, maxElapsed)
    case Answered(Sent(results)) => Judge(q, Reported(results, q.event.id), now, maxElapsed)
  }

  function Verdicts(batch: seq<Queued>, x: Exchange, now: seq<int>, maxElapsed: int): (vs: seq<Verdict>)
    requires |now| == |batch|
    ensures |vs| == |batch|
  {
    seq(|batch|, i requires 0 <= i < |batch| => VerdictOf(batch[i], x, now[i], maxElapsed))
  }

  // ---- What the exchange calls for --------------------------------------------------------

  /** The event counts as delivered: the send went through and the last report on the id, if there is one,
      says so; or the failure of the send is classified that way. */
  ghost predicate CountsAsDelivered(x: Exchange, id: string) {
    x.Answered? &&
    match x.send
    case SendFailed(classified) => classified == Ok
    case Sent(results) => Unreported(results, id) || LastReportIs(results, id, Ok)
  }

  /** The event is not to be tried again: the batch could not be encoded, or the last report on the id, or
      the classification of the failed send, says so. */
  ghost predicate IsRejected(x: Exchange, id: string) {
    x.EncodeError? ||
    match x.send
    case SendFailed(classified) => classified == DeadLetter
    case Sent(results) => LastReportIs(results, id, DeadLetter)
  }

  ghost predicate LastReportIs(results: seq<EventResult>, id: string, d: Disposition) {
    exists k: nat :: LastReport(results, k, id) && results[k].disposition == d
  }

  /** The time for retries is up: half an hour if the policy does not say. */
  predicate BudgetSpent(q: Queued, now: int, p: RetryPolicy) {
    now - q.firstQueue >= if p.maxElapsed <= 0 then 1_800_000_000_000 else p.maxElapsed
  }

  /** These are the effects due to one item. */
  ghost predicate Due(effects: seq<Effect>, q: Queued, x: Exchange, now: int, p: RetryPolicy) {
    var id := q.event.id;
    if CountsAsDelivered(x, id) then effects == [AckWal(id, Ok)]
    else if IsRejected(x, id) then effects == [PutDeadLetter(q.event, true), AckWal(id, DeadLetter)]
    else if BudgetSpent(q, now, p) then effects == [PutDeadLetter(q.event, false), AckWal(id, DeadLetter)]
    else effects == [Reenqueue(Queued(q.event, q.attempt + 1, q.firstQueue))]
  }

  /** These are the effects due to each item in turn. */
  ghost predicate AllDue(effects: seq<Effect>, batch: seq<Queued>, x: Exchange, now: seq<int>, p: RetryPolicy)
    requires |now| == |batch|
    decreases |batch|
  {
    if batch == [] then effects == []
    else
      var n := |batch| - 1;
      exists k :: 0 <= k <= |effects| &&
        AllDue(effects[..k], batch[..n], x, now[..n], p) && Due(effects[k..], batch[n], x, now[n], p)
  }

  lemma OneLastReport(results: seq<EventResult>, id: string, k: nat, d: Disposition)
    requires LastReport(results, k, id)
    ensures LastReportIs(results, id, d) <==> results[k].disposition == d
    ensures !Unreported(results, id)
  {
    if LastReportIs(results, id, d) {
      var j: nat :| LastReport(results, j, id) && results[j].disposition == d;
      assert j == k;
    }
  }

  lemma ItemDue(q: Queued, x: Exchange, now: int, p: RetryPolicy)
    ensures Due(EffectsOf(q, VerdictOf(q, x, now, WithDefaults(p).maxElapsed)), q, x, now, p)
    ensures !(CountsAsDelivered(x, q.event.id) && IsRejected(x, q.event.id))
  {
    if x.Answered? && x.send.Sent? {
      var results, id := x.send.results, q.event.id;
      var k := ReportedIsLast(results, id);
      if !Unreported(results, id) {
        OneLastReport(results, id, k, Ok);
        OneLastReport(results, id, k, DeadLetter);
      }
      hide LastReport, Reported;
    }
  }

  lemma {:induction false} FlushIsDue(batch: seq<Queued>, x: Exchange, now: seq<int>, p: RetryPolicy)
    requires |now| == |batch|
    ensures AllDue(AllEffects(batch, Verdicts(batch, x, now, WithDefaults(p).maxElapsed)), batch, x, now, p)
  {
    if batch != [] {
      var n := |batch| - 1;
      var vs := Verdicts(batch, x, now, WithDefaults(p).maxElapsed);
      FlushIsDue(batch[..n], x, now[..n], p);
      assert vs[..n] == Verdicts(batch[..n], x, now[..n], WithDefaults(p).maxElapsed);
      ItemDue(batch[n], x, now[n], p);
      var before, more := AllEffects(batch[..n], vs[..n]), EffectsOf(batch[n], vs[n]);
      hide Due, EffectsOf, VerdictOf;
      TakeWithin(before, more, |before|);
      TakeAll(before);
      DropPast(before, more);
      assert AllEffects(batch, vs) == before + more;
    }
  }

  // ---- The flush --------------------------------------------------------------------------

  /** A flush does exactly what the verdicts on its items say, in batch order, which is what the exchange
      calls for. */
  method FlushBatch(batch: seq<Queued>, x: Exchange, now: seq<int>, policy: RetryPolicy) returns (effects: seq<Effect>)
    requires |now| == |batch|
    ensures effects == AllEffects(batch, Verdicts(batch, x, now, WithDefaults(policy).maxElapsed))
    ensures AllDue(effects, batch, x, now, policy)
  {
    FlushIsDue(batch, x, now, policy);
    hide AllDue;
    ghost var vs := Verdicts(batch, x, now, WithDefaults(policy).maxElapsed);
    effects := [];
    if x.EncodeError? {
      for i := 0 to |batch|
        invariant effects == AllEffects(batch[..i], vs[..i])
      {
        EffectsSnoc(batch, vs, i);
        effects := effects + [PutDeadLetter(batch[i].event, true), AckWal(batch[i].event.id, DeadLetter)];
      }
      TakeAll(batch);
      TakeAll(vs);
      return;
    }
    match x.send
    case SendFailed(disposition) =>
      for i := 0 to |batch|
        invariant effects == AllEffects(batch[..i], vs[..i])
      {
        EffectsSnoc(batch, vs, i);
        var more := Resolve(batch[i], disposition, now[i], policy);
        effects := effects + more;
      }
      TakeAll(batch);
      TakeAll(vs);
    case Sent(results) =>
      effects := ResolveEach(batch, results, now, policy);
  }

  method ResolveEach(batch: seq<Queued>, results: seq<EventResult>, now: seq<int>, policy: RetryPolicy)
    returns (effects: seq<Effect>)
    requires |now| == |batch|
    ensures effects == AllEffects(batch, Verdicts(batch, Answered(Sent(results)), now, WithDefaults(policy).maxElapsed))
  {
    ghost var vs := Verdicts(batch, Answered(Sent(results)), now, WithDefaults(policy).maxElapsed);
    var byID := ByID(results);
    effects := [];
    for i := 0 to |batch|
      invariant effects == AllEffects(batch[..i], vs[..i])
    {
      EffectsSnoc(batch, vs, i);
      var r := if batch[i].event.id in byID then byID[batch[i].event.id] else EventResult(batch[i].event.id, Ok);
      var last := ReportedIsLast(results, batch[i].event.id);
      var more := Resolve(batch[i], r.disposition, now[i], policy);
      effects := effects + more;
    }
    TakeAll(batch);
    TakeAll(vs);
  }

  lemma EffectsSnoc(batch: seq<Queued>, vs: seq<Verdict>, i: nat)
    requires i < |batch| == |vs|
    ensures AllEffects(batch[..i + 1], vs[..i + 1]) == AllEffects(batch[..i], vs[..i]) + EffectsOf(batch[i], vs[i])
  {
    TakeTake(batch, i, i + 1);
    TakeTake(vs, i, i + 1);
  }

  /** The switch on the disposition: anything but Ok and DeadLetter is a retry, within budget. */
  method Resolve(q: Queued, d: Disposition, now: int, policy: RetryPolicy) returns (effects: seq<Effect>)
    ensures effects == EffectsOf(q, Judge(q, d, now, WithDefaults(policy).maxElapsed))
  {
    match d
    case Ok =>
      return [AckWal(q.event.id, Ok)];
    case DeadLetter =>
      return [PutDeadLetter(q.event, true), AckWal(q.event.id, DeadLetter)];
    case _ =>
      if now - q.firstQueue >= WithDefaults(policy).maxElapsed {
        return [PutDeadLetter(q.event, false), AckWal(q.event.id, DeadLetter)];
      }
      var next := q.(attempt := q.attempt + 1);
      return [Reenqueue(next)];
  }

  /** A dead-letter is recorded right before it is acknowledged, and only then acknowledged so. */
  ghost predicate PutBeforeAck(effects: seq<Effect>) {
    forall j :: 0 <= j < |effects| ==> Paired(effects, j)
  }

  ghost predicate Paired(effects: seq<Effect>, j: int)
    requires 0 <= j < |effects|
  {
    && (effects[j].PutDeadLetter? ==>
          j + 1 < |effects| && effects[j + 1] == AckWal(effects[j].event.id, DeadLetter))
    && (effects[j].AckWal? && effects[j].disposition == DeadLetter ==>
          j > 0 && effects[j - 1].PutDeadLetter? && effects[j - 1].event.id == effects[j].eventId)
  }

  /** What an effect does, apart from the event it is about. */
  datatype Kind = Acked(disposition: Disposition) | Recorded(permanent: bool) | Rescheduled

  function KindOf(e: Effect): Kind {
    match e
    case PutDeadLetter(_, permanent) => Recorded(permanent)
    case AckWal(_, d) => Acked(d)
    case Reenqueue(_) => Rescheduled
  }

  function About(e: Effect): string {
    match e
    case PutDeadLetter(event, _) => event.id
    case AckWal(id, _) => id
    case Reenqueue(next) => next.event.id
  }

  /** How many effects of a kind are about the id. */
  function Tally(effects: seq<Effect>, id: string, k: Kind): nat {
    if effects == [] then 0
    else
      var n := |effects| - 1;
      Tally(effects[..n], id, k) + (if About(effects[n]) == id && KindOf(effects[n]) == k then 1 else 0)
  }

  /** The kinds of effect a verdict calls for. */
  predicate CallsFor(v: Verdict, k: Kind) {
    match v
    case Delivered => k == Acked(Ok)
    case DeadLettered(permanent) => k == Recorded(permanent) || k == Acked(DeadLetter)
    case Retried => k == Rescheduled
  }

  /** How many items of the batch have the id and a verdict that calls for the kind. */
  function Items(batch: seq<Queued>, vs: seq<Verdict>, id: string, k: Kind): nat
    requires |batch| == |vs|
  {
    if batch == [] then 0
    else
      var n := |batch| - 1;
      Items(batch[..n], vs[..n], id, k) + (if batch[n].event.id == id && CallsFor(vs[n], k) then 1 else 0)
  }

  function Copies(batch: seq<Queued>, id: string): nat {
    if batch == [] then 0
    else
      var n := |batch| - 1;
      Copies(batch[..n], id) + (if batch[n].event.id == id then 1 else 0)
  }

  lemma {:induction false} TallyConcat(a: seq<Effect>, b: seq<Effect>, id: string, k: Kind)
    ensures Tally(a + b, id, k) == Tally(a, id, k) + Tally(b, id, k)
  {
    if b == [] {
      assert a + b == a;
    } else {
      assert (a + b)[..|a + b| - 1] == a + b[..|b| - 1];
      TallyConcat(a, b[..|b| - 1], id, k);
    }
  }

  lemma TallyOfOne(q: Queued, v: Verdict, id: string, k: Kind)
    ensures Tally(EffectsOf(q, v), id, k) == if q.event.id == id && CallsFor(v, k) then 1 else 0
  {
    var e := EffectsOf(q, v);
    TallyOfSingle(e[0], id, k);
    if v.DeadLettered? {
      assert e[..1] == [e[0]];
    }
  }

  lemma TallyOfSingle(e: Effect, id: string, k: Kind)
    ensures Tally([e], id, k) == if About(e) == id && KindOf(e) == k then 1 else 0
  {
    assert [e][..0] == [];
  }

  /** For every id and every kind of effect there are as many effects of that kind about the id as items
      with the id whose verdict calls for it. */
  lemma {:induction false} EffectsMatchVerdicts(batch: seq<Queued>, vs: seq<Verdict>, id: string, k: Kind)
    requires |batch| == |vs|
    ensures Tally(AllEffects(batch, vs), id, k) == Items(batch, vs, id, k)
  {
    if batch == [] {
    } else {
      var n := |batch| - 1;
      EffectsMatchVerdicts(batch[..n], vs[..n], id, k);
      TallyConcat(AllEffects(batch[..n], vs[..n]), EffectsOf(batch[n], vs[n]), id, k);
      TallyOfOne(batch[n], vs[n], id, k);
    }
  }

  lemma {:induction false} ItemsAddUp(batch: seq<Queued>, vs: seq<Verdict>, id: string)
    requires |batch| == |vs|
    ensures Items(batch, vs, id, Acked(Ok)) + Items(batch, vs, id, Acked(DeadLetter)) + Items(batch, vs, id, Rescheduled)
            == Copies(batch, id)
    ensures Items(batch, vs, id, Recorded(true)) + Items(batch, vs, id, Recorded(false)) == Items(batch, vs, id, Acked(DeadLetter))
  {
    if batch == [] {
    } else {
      ItemsAddUp(batch[..|batch| - 1], vs[..|batch| - 1], id);
    }
  }

  /** Whatever the verdicts, every event is resolved once for each time it is in the batch: for every id
      there are as many acknowledgements and retries together as items with the id, and as many
      dead-letter records as dead-letter acknowledgements. */
  lemma EachResolvedOnce(batch: seq<Queued>, vs: seq<Verdict>, id: string)
    requires |batch| == |vs|
    ensures var e := AllEffects(batch, vs);
            && Tally(e, id, Acked(Ok)) + Tally(e, id, Acked(DeadLetter)) + Tally(e, id, Rescheduled) == Copies(batch, id)
            && Tally(e, id, Recorded(true)) + Tally(e, id, Recorded(false)) == Tally(e, id, Acked(DeadLetter))
  {
    EffectsMatchVerdicts(batch, vs, id, Acked(Ok));
    EffectsMatchVerdicts(batch, vs, id, Acked(DeadLetter));
    EffectsMatchVerdicts(batch, vs, id, Rescheduled);
    EffectsMatchVerdicts(batch, vs, id, Recorded(true));
    EffectsMatchVerdicts(batch, vs, id, Recorded(false));
    ItemsAddUp(batch, vs, id);
  }

  lemma PutBeforeAckConcat(a: seq<Effect>, b: seq<Effect>)
    requires PutBeforeAck(a) && PutBeforeAck(b)
    ensures PutBeforeAck(a + b)
  {
    var c := a + b;
    forall j | 0 <= j < |c| ensures Paired(c, j) {
      assert j < |a| ==> Paired(a, j);
      assert j >= |a| ==> Paired(b, j - |a|);
    }
  }

  /** No dead-letter goes acknowledged unrecorded, or recorded unacknowledged. */
  lemma {:induction false} RecordedThenAcked(batch: seq<Queued>, vs: seq<Verdict>)
    requires |batch| == |vs|
    ensures PutBeforeAck(AllEffects(batch, vs))
  {
    if batch == [] {
    } else {
      var n := |batch| - 1;
      RecordedThenAcked(batch[..n], vs[..n]);
      PutBeforeAckConcat(AllEffects(batch[..n], vs[..n]), EffectsOf(batch[n], vs[n]));
    }
  }

  ghost predicate RetryOf(next: Queued, batch: seq<Queued>, vs: seq<Verdict>, i: nat)
    requires |batch| == |vs|
  {
    i < |batch| && vs[i] == Retried && next == batch[i].(attempt := batch[i].attempt + 1)
  }

  ghost predicate IsRetry(next: Queued, batch: seq<Queued>, vs: seq<Verdict>)
    requires |batch| == |vs|
  {
    exists i: nat :: RetryOf(next, batch, vs, i)
  }

  lemma IsRetryNext(next: Queued, batch: seq<Queued>, vs: seq<Verdict>, n: nat)
    requires |batch| == |vs| == n + 1
    ensures IsRetry(next, batch, vs) <==> IsRetry(next, batch[..n], vs[..n]) || RetryOf(next, batch, vs, n)
  {
    if i: nat :| RetryOf(next, batch, vs, i) {
      assert i < n ==> RetryOf(next, batch[..n], vs[..n], i);
    }
    if i: nat :| RetryOf(next, batch[..n], vs[..n], i) {
      assert RetryOf(next, batch, vs, i);
    }
  }

  /** A retry is an event of the batch whose verdict it was, since the same first moment, with one
      more attempt; and every such event is retried. */
  lemma {:induction false} RetriesAreExact(batch: seq<Queued>, vs: seq<Verdict>, next: Queued)
    requires |batch| == |vs|
    ensures Reenqueue(next) in AllEffects(batch, vs) <==> IsRetry(next, batch, vs)
  {
    if batch == [] {
    } else {
      var n := |batch| - 1;
      RetriesAreExact(batch[..n], vs[..n], next);
      IsRetryNext(next, batch, vs, n);
      assert Reenqueue(next) in EffectsOf(batch[n], vs[n]) <==> RetryOf(next, batch, vs, n);
      hide EffectsOf, IsRetry, RetryOf;
    }
  }

  // ---- Back-off ---------------------------------------------------------------------------

  const TWO_62: int := 0x4000_0000_0000_0000
  const TWO_63: int := 0x8000_0000_0000_0000
  const SECOND: int := 1_000_000_000
  const MINUTE: int := 60 * SECOND

  /** A duration as the program stores it, in 64 bits. */
  predicate Int64(x: int) {
    -TWO_63 <= x < TWO_63
  }

  /** Doubling a 64-bit value wraps around. */
  function Doubled(d: int): (r: int)
    requires Int64(d)
    ensures Int64(r)
  {
    if 2 * d >= TWO_63 then 2 * d - 2 * TWO_63 else if 2 * d < -TWO_63 then 2 * d + 2 * TWO_63 else 2 * d
  }

  datatype RetryPolicy = RetryPolicy(initialBackoff: int, maxBackoff: int, maxElapsed: int)

  function WithDefaults(p: RetryPolicy): RetryPolicy {
    RetryPolicy(
      if p.initialBackoff <= 0 then SECOND else p.initialBackoff,
      if p.maxBackoff <= 0 then 2 * MINUTE else p.maxBackoff,
      if p.maxElapsed <= 0 then 30 * MINUTE else p.maxElapsed)
  }

  ghost predicate Int64Policy(p: RetryPolicy) {
    Int64(p.initialBackoff) && Int64(p.maxBackoff) && Int64(p.maxElapsed)
  }

  /** The value of the loop variable after at most `steps` doublings. */
  function Grown(d: int, maxBackoff: int, steps: nat): int
    requires Int64(d)
    decreases steps
  {
    if steps == 0 || d >= maxBackoff then d else Grown(Doubled(d), maxBackoff, steps - 1)
  }

  /** The upper end of the delay, before jitter. */
  function DelayCap(p: RetryPolicy, attempt: int): int
    requires Int64Policy(p)
  {
    var q := WithDefaults(p);
    var d := Grown(q.initialBackoff, q.maxBackoff, if attempt > 1 then attempt - 1 else 0);
    if d > q.maxBackoff then q.maxBackoff else d
  }

  /** The delay before a retry: `jitter` stands for the generator, which picks a value in [0, n) for
      any n > 0 and panics otherwise. */
  method Backoff(p: RetryPolicy, attempt: int, jitter: nat) returns (delay: int, panicked: bool)
    requires Int64Policy(p)
    ensures panicked <==> !(0 <= DelayCap(p, attempt) < TWO_63 - 1)
    ensures !panicked ==> 0 <= DelayCap(p, attempt) && delay == jitter % (DelayCap(p, attempt) + 1)
  {
    var q := WithDefaults(p);
    var d := q.initialBackoff;
    var i := 1;
    while i < attempt && d < q.maxBackoff
      invariant 1 <= i && (i <= attempt || i == 1) && Int64(d)
      invariant Grown(d, q.maxBackoff, if attempt > i then attempt - i else 0) ==
                Grown(q.initialBackoff, q.maxBackoff, if attempt > 1 then attempt - 1 else 0)
      decreases attempt - i
    {
      d := Doubled(d);
      i := i + 1;
    }
    if d > q.maxBackoff {
      d := q.maxBackoff;
    }
    var n := if d + 1 == TWO_63 then -TWO_63 else d + 1;
    if n <= 0 {
      return 0, true;
    }
    return jitter % n, false;
  }

  /** A retry is the item with one attempt more, and waits for a delay of that attempt. */
  method ScheduleRetry(q: Queued, p: RetryPolicy, jitter: nat) returns (next: Queued, delay: int, panicked: bool)
    requires Int64Policy(p)
    ensures next == Queued(q.event, q.attempt + 1, q.firstQueue)
    ensures panicked <==> !(0 <= DelayCap(p, q.attempt + 1) < TWO_63 - 1)
    ensures !panicked ==> 0 <= DelayCap(p, q.attempt + 1) && delay == jitter % (DelayCap(p, q.attempt + 1) + 1)
  {
    next := q.(attempt := q.attempt + 1);
    delay, panicked := Backoff(p, next.attempt, jitter);
  }

  function Pow2(n: nat): nat {
    if n == 0 then 1 else 2 * Pow2(n - 1)
  }

  function Min(a: int, b: int): int {
    if a < b then a else b
  }

  /** Without overflow on the way the loop computes the exact power. */
  lemma {:induction false} GrownExact(d: int, maxBackoff: int, steps: nat)
    requires 0 < d && Int64(d)
    requires forall k: nat :: k < steps ==> !(TWO_62 <= d * Pow2(k) < maxBackoff)
    ensures Min(Grown(d, maxBackoff, steps), maxBackoff) == Min(d * Pow2(steps), maxBackoff)
    decreases steps
  {
    if d >= maxBackoff {
      GrowsPast(d, steps);
    } else if steps > 0 {
      var zero: nat := 0;
      assert d * Pow2(zero) == d;
      assert Doubled(d) == 2 * d;
      forall k: nat | k < steps - 1 ensures !(TWO_62 <= 2 * d * Pow2(k) < maxBackoff) {
        Shift(d, k);
        assert !(TWO_62 <= d * Pow2(k + 1) < maxBackoff);
      }
      Shift(d, steps - 1);
      GrownExact(2 * d, maxBackoff, steps - 1);
    } else {
      assert d * Pow2(0) == d;
    }
  }

  lemma Shift(d: int, k: nat)
    ensures 2 * d * Pow2(k) == d * Pow2(k + 1)
  {
  }

  lemma {:induction false} GrowsPast(d: int, steps: nat)
    requires d > 0
    ensures d * Pow2(steps) >= d
  {
    if steps == 0 {
    } else {
      GrowsPast(d, steps - 1);
      Shift(d, steps - 1);
      assert 2 * d * Pow2(steps - 1) == 2 * (d * Pow2(steps - 1));
    }
  }

  /** The cap is Initial doubled attempt - 1 times, limited to MaxBackoff, for every attempt, exactly
      when no doubling of a value still below MaxBackoff leaves 63 bits. */
  lemma BackoffClosedForm(p: RetryPolicy)
    requires Int64Policy(p)
    ensures var q := WithDefaults(p);
            (forall attempt: int :: attempt >= 1 ==>
               DelayCap(p, attempt) == Min(q.initialBackoff * Pow2(attempt - 1), q.maxBackoff)) <==>
            (forall k: nat :: !(TWO_62 <= q.initialBackoff * Pow2(k) < q.maxBackoff))
  {
    var q := WithDefaults(p);
    if forall k: nat :: !(TWO_62 <= q.initialBackoff * Pow2(k) < q.maxBackoff) {
      forall attempt: int | attempt >= 1
        ensures DelayCap(p, attempt) == Min(q.initialBackoff * Pow2(attempt - 1), q.maxBackoff)
      {
        GrownExact(q.initialBackoff, q.maxBackoff, attempt - 1);
      }
    } else {
      var k: nat :| TWO_62 <= q.initialBackoff * Pow2(k) < q.maxBackoff;
      OverflowAt(q.initialBackoff, q.maxBackoff, k);
      GrowsPast(q.initialBackoff, k + 1);
      assert DelayCap(p, k + 2) < 0;
      assert Min(q.initialBackoff * Pow2(k + 1), q.maxBackoff) > 0;
    }
  }

  /** The doubling that overflows leaves a negative delay, on which the generator panics. */
  lemma {:induction false} OverflowAt(d: int, maxBackoff: int, k: nat)
    requires 0 < d && Int64(d) && Int64(maxBackoff) && TWO_62 <= d * Pow2(k) < maxBackoff
    ensures Grown(d, maxBackoff, k + 1) < 0
    decreases k
  {
    GrowsPast(d, k);
    if k == 0 {
      assert d * Pow2(0) == d;
      assert Grown(Doubled(d), maxBackoff, 0) == Doubled(d);
    } else {
      GrowsPast(2 * d, k - 1);
      Shift(d, k - 1);
      assert Doubled(d) == 2 * d;
      OverflowAt(2 * d, maxBackoff, k - 1);
    }
  }

  /** Any MaxBackoff up to 2^62 ns, some 146 years, is safe whatever the initial delay. */
  lemma ModestBackoffIsExact(p: RetryPolicy, attempt: int)
    requires Int64Policy(p) && WithDefaults(p).maxBackoff <= TWO_62 && attempt >= 1
    ensures DelayCap(p, attempt) == Min(WithDefaults(p).initialBackoff * Pow2(attempt - 1), WithDefaults(p).maxBackoff)
    ensures 0 < DelayCap(p, attempt) <= WithDefaults(p).maxBackoff
  {
    BackoffClosedForm(p);
    GrowsPast(WithDefaults(p).initialBackoff, attempt - 1);
  }

  /** A policy that says nothing waits up to one second, then twice as long each time, up to two minutes. */
  lemma DefaultDelays(p: RetryPolicy, attempt: int)
    requires p.initialBackoff <= 0 && p.maxBackoff <= 0 && Int64Policy(p) && attempt >= 1
    ensures DelayCap(p, attempt) == Min(1_000_000_000 * Pow2(attempt - 1), 120_000_000_000)
  {
    ModestBackoffIsExact(p, attempt);
  }

  // ---- How long retries go on -------------------------------------------------------------

  /** The life of one copy that keeps being retried: attempt i is judged at times[i], is within budget,
      and is queued again `delays[i]` later; each trip to the provider costs at least one tick. */
  ghost predicate Retrying(q: Queued, times: seq<int>, delays: seq<int>, p: RetryPolicy)
    requires Int64Policy(p)
  {
    && |times| == |delays|
    && forall i: nat :: i < |times| ==> Attempt(q, times, delays, p, i)
  }

  ghost predicate Attempt(q: Queued, times: seq<int>, delays: seq<int>, p: RetryPolicy, i: nat)
    requires i < |times| == |delays| && Int64Policy(p)
  {
    && Judge(q, Retry, times[i], WithDefaults(p).maxElapsed) == Retried
    && 0 <= delays[i] <= DelayCap(p, i + 1)
    && times[i] >= (if i == 0 then q.firstQueue else times[i - 1] + delays[i - 1]) + 1
  }

  /** Retries stop, under any policy. Every re-enqueue happens less than MaxElapsed + MaxBackoff after the
      event was first queued, and there are fewer of them than ticks in MaxElapsed. */
  lemma RetriesTerminate(q: Queued, times: seq<int>, delays: seq<int>, p: RetryPolicy)
    requires Int64Policy(p) && Retrying(q, times, delays, p)
    ensures |times| < WithDefaults(p).maxElapsed
    ensures forall i :: 0 <= i < |times| ==>
              times[i] + delays[i] < q.firstQueue + WithDefaults(p).maxElapsed + WithDefaults(p).maxBackoff
  {
    if times != [] {
      LaterEachTime(q, times, delays, p, |times| - 1);
      assert Attempt(q, times, delays, p, |times| - 1);
    }
    forall i: nat | i < |times|
      ensures times[i] + delays[i] < q.firstQueue + WithDefaults(p).maxElapsed + WithDefaults(p).maxBackoff
    {
      assert Attempt(q, times, delays, p, i);
    }
  }

  lemma {:induction false} LaterEachTime(q: Queued, times: seq<int>, delays: seq<int>, p: RetryPolicy, i: nat)
    requires Int64Policy(p) && Retrying(q, times, delays, p) && i < |times|
    ensures times[i] >= q.firstQueue + i + 1
  {
    assert Attempt(q, times, delays, p, i);
    if i == 0 {
    } else {
      LaterEachTime(q, times, delays, p, i - 1);
      assert Attempt(q, times, delays, p, i - 1);
    }
  }
}
