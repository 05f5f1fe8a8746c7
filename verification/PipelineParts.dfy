/** How the components do the steps of the daemon: the queue loop and the flushes of the batcher are
    stretches of a run, their acknowledgements are the ones a commit may write, the sink dispatches what a commit accepts, and the
    receiver only submits appends for known providers. */
module PipelineParts {
  import opened Types
  import opened Seqs
  import opened WalLog
  import opened WalState
  import opened WalInvariant
  import opened Pipeline
  import B = Batcher
  import DI = DlqInvariant
  import G = WalGroupCommit
  import Wal
  import D = DlqState
  import Q = Dispatch
  import S = Sink
  import I = Ingest

  // ---- Stretches of a run -----------------------------------------------------------------

  /** A step of one copy. */
  predicate Local(st: Step) {
    !st.CommitStep? && !st.RestartStep?
  }

  ghost function Exec(s: Sys, steps: seq<Step>): Sys
    requires forall st :: st in steps ==> Local(st)
  {
    if steps == [] then s
    else
      var n := |steps| - 1;
      assert Local(steps[n]);
      Next(Exec(s, steps[..n]), steps[n])
  }

  /** Each of the steps can be taken when its turn comes. */
  ghost predicate AllEnabled(s: Sys, steps: seq<Step>)
    requires forall st :: st in steps ==> Local(st)
  {
    steps == [] ||
    (AllEnabled(s, steps[..|steps| - 1]) && Enabled(Exec(s, steps[..|steps| - 1]), steps[|steps| - 1]))
  }

  lemma {:induction false} ExecConcat(s: Sys, a: seq<Step>, b: seq<Step>)
    requires forall st :: st in a + b ==> Local(st)
    ensures (forall st :: st in a ==> Local(st)) && (forall st :: st in b ==> Local(st))
    ensures Exec(s, a + b) == Exec(Exec(s, a), b)
    ensures AllEnabled(s, a + b) <==> AllEnabled(s, a) && AllEnabled(Exec(s, a), b)
  {
    assert forall st :: st in a + b <==> st in a || st in b;
    if b == [] {
      assert a + b == a;
    } else {
      var n := |b| - 1;
      assert (a + b)[..|a + b| - 1] == a + b[..n] && (a + b)[|a + b| - 1] == b[n];
      assert forall st :: st in a + b[..n] ==> st in a + b;
      hide Next, Enabled;
      ExecNext(s, a + b);
      ExecNext(Exec(s, a), b);
      hide Exec, AllEnabled;
      ExecConcat(s, a, b[..n]);
    }
  }

  lemma ExecNext(s: Sys, steps: seq<Step>)
    requires steps != [] && forall st :: st in steps ==> Local(st)
    ensures var n := |steps| - 1;
            && (forall st :: st in steps[..n] ==> Local(st)) && Local(steps[n])
            && Exec(s, steps) == Next(Exec(s, steps[..n]), steps[n])
            && (AllEnabled(s, steps) <==> AllEnabled(s, steps[..n]) && Enabled(Exec(s, steps[..n]), steps[n]))
  {
    hide Next, Enabled;
  }

  // ---- A flush ----------------------------------------------------------------------------

  function CopyOf(q: B.Queued, p: string, stage: Stage): Copy {
    Copy(q.event.id, p, stage)
  }

  function CopiesOf(items: seq<B.Queued>, p: string, stage: Stage): multiset<Copy> {
    if items == [] then multiset{}
    else CopiesOf(items[..|items| - 1], p, stage) + multiset{CopyOf(items[|items| - 1], p, stage)}
  }

  /** Where a verdict leaves a copy. */
  function StageAfter(v: B.Verdict): Stage {
    match v
    case Delivered => Acking(Ok)
    case DeadLettered(_) => Acking(DeadLetter)
    case Retried => RetryTimer
  }

  function CopiesAfter(batch: seq<B.Queued>, vs: seq<B.Verdict>, p: string): multiset<Copy>
    requires |batch| == |vs|
  {
    if batch == [] then multiset{}
    else
      var n := |batch| - 1;
      CopiesAfter(batch[..n], vs[..n], p) + multiset{CopyOf(batch[n], p, StageAfter(vs[n]))}
  }

  /** The step an effect is. The acknowledgement of a dead-letter is none: the copy has been on its way
      to it since the record was put. */
  function StepsOf(e: B.Effect, p: string, reason: string, io: D.PutIo): seq<Step> {
    match e
    case PutDeadLetter(event, permanent) => [DeadLetterStep(Copy(event.id, p, InFlight), event, reason, permanent, io)]
    case AckWal(id, d) => if d == Ok then [ReportOkStep(Copy(id, p, InFlight))] else []
    case Reenqueue(next) => [MoveStep(Copy(next.event.id, p, InFlight), RetryTimer)]
  }

  function AllSteps(effects: seq<B.Effect>, p: string, reason: string, ios: seq<D.PutIo>): (steps: seq<Step>)
    requires |effects| == |ios|
    ensures forall st :: st in steps ==> Local(st)
  {
    if effects == [] then []
    else
      var n := |effects| - 1;
      AllSteps(effects[..n], p, reason, ios[..n]) + StepsOf(effects[n], p, reason, ios[n])
  }

  lemma NoSteps(p: string, reason: string)
    ensures AllSteps([], p, reason, []) == []
  {
  }

  lemma AllStepsNext(e: seq<B.Effect>, p: string, reason: string, ios: seq<D.PutIo>)
    requires |e| == |ios| && e != []
    ensures var n := |e| - 1;
            AllSteps(e, p, reason, ios) == AllSteps(e[..n], p, reason, ios[..n]) + StepsOf(e[n], p, reason, ios[n])
  {
    hide StepsOf;
  }

  lemma {:induction false} AllStepsConcat(
    a: seq<B.Effect>, b: seq<B.Effect>, p: string, reason: string, i: seq<D.PutIo>, j: seq<D.PutIo>)
    requires |a| == |i| && |b| == |j|
    ensures AllSteps(a + b, p, reason, i + j) == AllSteps(a, p, reason, i) + AllSteps(b, p, reason, j)
  {
    hide StepsOf, AllSteps;
    if b == [] {
      assert a + b == a && i + j == i;
      NoSteps(p, reason);
    } else {
      var n := |b| - 1;
      assert (a + b)[..|a + b| - 1] == a + b[..n] && (i + j)[..|i + j| - 1] == i + j[..n];
      assert (a + b)[|a + b| - 1] == b[n] && (i + j)[|i + j| - 1] == j[n];
      AllStepsNext(a + b, p, reason, i + j);
      AllStepsNext(b, p, reason, j);
      AllStepsConcat(a, b[..n], p, reason, i, j[..n]);
      Assoc(AllSteps(a, p, reason, i), AllSteps(b[..n], p, reason, j[..n]), StepsOf(b[n], p, reason, j[n]));
    }
  }

  lemma StepsOfOne(e: B.Effect, p: string, reason: string, io: D.PutIo)
    ensures AllSteps([e], p, reason, [io]) == StepsOf(e, p, reason, io)
  {
    assert [e][..0] == [] && [io][..0] == [];
  }

  /** The one step of an item. */
  function ItemStep(q: B.Queued, v: B.Verdict, p: string, reason: string, io: D.PutIo): Step {
    match v
    case Delivered => ReportOkStep(CopyOf(q, p, InFlight))
    case DeadLettered(permanent) => DeadLetterStep(CopyOf(q, p, InFlight), q.event, reason, permanent, io)
    case Retried => MoveStep(CopyOf(q, p, InFlight), RetryTimer)
  }

  lemma StepsOfItem(q: B.Queued, v: B.Verdict, p: string, reason: string, ios: seq<D.PutIo>)
    requires |ios| == |B.EffectsOf(q, v)|
    ensures ios != [] && AllSteps(B.EffectsOf(q, v), p, reason, ios) == [ItemStep(q, v, p, reason, ios[0])]
  {
    var e := B.EffectsOf(q, v);
    StepsOfOne(e[0], p, reason, ios[0]);
    if v.DeadLettered? {
      StepsOfOne(e[1], p, reason, ios[1]);
      AllStepsConcat([e[0]], [e[1]], p, reason, [ios[0]], [ios[1]]);
      assert e == [e[0]] + [e[1]] && ios == [ios[0]] + [ios[1]];
    } else {
      assert e == [e[0]] && ios == [ios[0]];
    }
  }

  /** What the steps of some items leave of the state. */
  ghost predicate Flushed(s: Sys, t: Sys, before: multiset<Copy>, now: multiset<Copy>, p: string, delivered: set<string>) {
    && t.copies == s.copies - before + now
    && t.log == s.log && t.known == s.known && t.accepted == s.accepted && t.lossy == s.lossy
    && t.delivered == s.delivered + PairsOf(delivered, p)
  }

  function PairsOf(ids: set<string>, p: string): set<Pair> {
    set id | id in ids :: (id, p)
  }

  function DeliveredIds(batch: seq<B.Queued>, vs: seq<B.Verdict>): set<string>
    requires |batch| == |vs|
  {
    set i | 0 <= i < |batch| && vs[i].Delivered? :: batch[i].event.id
  }

  /** The effects on one item are one step of its copy. */
  lemma OneItem(s: Sys, q: B.Queued, v: B.Verdict, p: string, reason: string, io: D.PutIo)
    requires CopyOf(q, p, InFlight) in s.copies
    ensures var st := ItemStep(q, v, p, reason, io);
            && Local(st) && Enabled(s, st)
            && Flushed(s, Next(s, st), multiset{CopyOf(q, p, InFlight)}, multiset{CopyOf(q, p, StageAfter(v))}, p,
                       if v.Delivered? then {q.event.id} else {})
  {
    hide D.Put;
  }

  lemma ExecOne(s: Sys, st: Step)
    requires Local(st)
    ensures Exec(s, [st]) == Next(s, st) && (AllEnabled(s, [st]) <==> Enabled(s, st))
  {
    hide Next, Enabled;
    assert [st][..0] == [];
  }

  lemma FlushedTwice(
    s: Sys, t: Sys, u: Sys, a: multiset<Copy>, b: multiset<Copy>, c: Copy, d: Copy, p: string, i: set<string>, j: set<string>)
    requires Flushed(s, t, a, b, p, i) && Flushed(t, u, multiset{c}, multiset{d}, p, j) && a + multiset{c} <= s.copies
    ensures Flushed(s, u, a + multiset{c}, b + multiset{d}, p, i + j)
  {
    assert PairsOf(i + j, p) == PairsOf(i, p) + PairsOf(j, p);
    SwapTwice(s.copies, a, b, c, d);
    hide PairsOf;
  }

  lemma SwapTwice(m: multiset<Copy>, a: multiset<Copy>, b: multiset<Copy>, c: Copy, d: Copy)
    requires a + multiset{c} <= m
    ensures m - a + b - multiset{c} + multiset{d} == m - (a + multiset{c}) + (b + multiset{d})
  {
  }

  /** Every flush is a stretch of a run, whatever the adapter answers and however its puts go: if the
      copies of a batch are in flight, the effects of its verdicts, in order, are steps the daemon can
      take, and they leave each copy about to be acknowledged or on a retry timer. */
  lemma {:induction false} FlushIsARun(
    s: Sys, batch: seq<B.Queued>, vs: seq<B.Verdict>, p: string, reason: string, ios: seq<D.PutIo>)
    requires |batch| == |vs| && |ios| == |B.AllEffects(batch, vs)| && CopiesOf(batch, p, InFlight) <= s.copies
    ensures var steps := AllSteps(B.AllEffects(batch, vs), p, reason, ios);
            && AllEnabled(s, steps)
            && Flushed(s, Exec(s, steps), CopiesOf(batch, p, InFlight), CopiesAfter(batch, vs, p), p, DeliveredIds(batch, vs))
  {
    if batch == [] {
      assert PairsOf({}, p) == {};
    } else {
      var n := |batch| - 1;
      var before, more := B.AllEffects(batch[..n], vs[..n]), B.EffectsOf(batch[n], vs[n]);
      var i, j := ios[..|before|], ios[|before|..];
      assert i + j == ios && |j| == |more|;
      DeliveredNext(batch, vs, n);
      StepsOfItem(batch[n], vs[n], p, reason, j);
      AllStepsConcat(before, more, p, reason, i, j);
      FlushIsARun(s, batch[..n], vs[..n], p, reason, i);
      hide AllSteps, DeliveredIds, B.AllEffects, B.EffectsOf, StageAfter, Flushed, Next, ItemStep;
      FlushMore(s, AllSteps(before, p, reason, i), batch[n], vs[n], p, reason, j[0],
                CopiesOf(batch[..n], p, InFlight), CopiesAfter(batch[..n], vs[..n], p), DeliveredIds(batch[..n], vs[..n]));
    }
  }

  lemma FlushMore(
    s: Sys, first: seq<Step>, q: B.Queued, v: B.Verdict, p: string, reason: string, io: D.PutIo,
    a: multiset<Copy>, b: multiset<Copy>, ids: set<string>)
    requires (forall st :: st in first ==> Local(st)) && AllEnabled(s, first) && Flushed(s, Exec(s, first), a, b, p, ids)
    requires a + multiset{CopyOf(q, p, InFlight)} <= s.copies
    ensures var steps := first + [ItemStep(q, v, p, reason, io)];
            && (forall st :: st in steps ==> Local(st)) && AllEnabled(s, steps)
            && Flushed(s, Exec(s, steps), a + multiset{CopyOf(q, p, InFlight)}, b + multiset{CopyOf(q, p, StageAfter(v))}, p,
                       ids + if v.Delivered? then {q.event.id} else {})
  {
    var u := Exec(s, first);
    var st := ItemStep(q, v, p, reason, io);
    assert CopyOf(q, p, InFlight) in u.copies;
    OneItem(u, q, v, p, reason, io);
    hide Flushed, Next, Enabled, ItemStep, StageAfter;
    ExecOne(u, st);
    ExecConcat(s, first, [st]);
    FlushedTwice(s, u, Next(u, st), a, b, CopyOf(q, p, InFlight), CopyOf(q, p, StageAfter(v)), p, ids,
                 if v.Delivered? then {q.event.id} else {});
  }

  lemma DeliveredNext(batch: seq<B.Queued>, vs: seq<B.Verdict>, n: nat)
    requires |batch| == |vs| == n + 1
    ensures DeliveredIds(batch, vs) ==
            DeliveredIds(batch[..n], vs[..n]) + if vs[n].Delivered? then {batch[n].event.id} else {}
  {
    forall id | id in DeliveredIds(batch[..n], vs[..n]) ensures id in DeliveredIds(batch, vs) {
      var i :| 0 <= i < n && vs[..n][i].Delivered? && batch[..n][i].event.id == id;
      assert batch[i].event.id == id && vs[i].Delivered?;
    }
    forall id | id in DeliveredIds(batch, vs)
      ensures id in DeliveredIds(batch[..n], vs[..n]) || (vs[n].Delivered? && batch[n].event.id == id)
    {
      var i :| 0 <= i < n + 1 && vs[i].Delivered? && batch[i].event.id == id;
      assert i < n ==> vs[..n][i].Delivered? && batch[..n][i].event.id == id;
    }
  }

  // ---- The queue loop ---------------------------------------------------------------------

  lemma {:induction false} CopiesOfConcat(a: seq<B.Queued>, b: seq<B.Queued>, p: string, stage: Stage)
    ensures CopiesOf(a + b, p, stage) == CopiesOf(a, p, stage) + CopiesOf(b, p, stage)
  {
    if b == [] {
      assert a + b == a;
    } else {
      var n := |b| - 1;
      assert (a + b)[..|a + b| - 1] == a + b[..n] && (a + b)[|a + b| - 1] == b[n];
      CopiesOfConcat(a, b[..n], p, stage);
    }
  }

  /** The copies of some items all go from one stage to another. */
  function MoveAll(items: seq<B.Queued>, p: string, from: Stage, to: Stage): (steps: seq<Step>)
    ensures forall st :: st in steps ==> Local(st)
  {
    if items == [] then []
    else MoveAll(items[..|items| - 1], p, from, to) + [MoveStep(CopyOf(items[|items| - 1], p, from), to)]
  }

  lemma {:induction false} MoveAllRuns(s: Sys, items: seq<B.Queued>, p: string, from: Stage, to: Stage)
    requires Moves(from, to) && CopiesOf(items, p, from) <= s.copies
    ensures var steps := MoveAll(items, p, from, to);
            && AllEnabled(s, steps)
            && Exec(s, steps) == s.(copies := s.copies - CopiesOf(items, p, from) + CopiesOf(items, p, to))
  {
    hide Enabled, Next, Moves;
    if items != [] {
      var n := |items| - 1;
      var first := MoveAll(items[..n], p, from, to);
      MoveAllRuns(s, items[..n], p, from, to);
      var u, st := Exec(s, first), MoveStep(CopyOf(items[n], p, from), to);
      SwapTwice(s.copies, CopiesOf(items[..n], p, from), CopiesOf(items[..n], p, to),
                CopyOf(items[n], p, from), CopyOf(items[n], p, to));
      MoveOne(u, CopyOf(items[n], p, from), to);
      ExecOne(u, st);
      ExecConcat(s, first, [st]);
    }
  }

  lemma MoveOne(s: Sys, c: Copy, to: Stage)
    requires c in s.copies && Moves(c.stage, to)
    ensures Enabled(s, MoveStep(c, to))
    ensures Next(s, MoveStep(c, to)) == s.(copies := s.copies - multiset{c} + multiset{c.(stage := to)})
  {
  }

  /** The items the loop holds: those of a batch that waits for a slot, and those not yet cut. */
  function Gathered(l: B.Loop): seq<B.Queued> {
    (if l.waiting.Some? then l.waiting.value.batch else []) + l.pending
  }

  /** The batch a turn of the loop starts, if it starts one. */
  function Started(l: B.Loop, x: B.Input, maxBatch: nat): seq<B.Queued>
    requires B.Possible(l, x)
  {
    var t := B.Turn(l, x, maxBatch);
    if |t.spawned| > |l.spawned| then t.spawned[|l.spawned|].batch else []
  }

  /** A turn takes what it receives off the queue, and puts what it starts in flight. */
  function TurnSteps(l: B.Loop, x: B.Input, p: string, maxBatch: nat): (steps: seq<Step>)
    requires B.Possible(l, x)
    ensures forall st :: st in steps ==> Local(st)
  {
    MoveAll(B.ReceivedIn(x), p, Queued, Batched) + MoveAll(Started(l, x, maxBatch), p, Batched, InFlight)
  }

  lemma TurnItems(l: B.Loop, x: B.Input, maxBatch: nat)
    requires B.Possible(l, x)
    ensures Started(l, x, maxBatch) + Gathered(B.Turn(l, x, maxBatch)) == Gathered(l) + B.ReceivedIn(x)
    ensures B.Batches(B.Turn(l, x, maxBatch).spawned) == B.Batches(l.spawned) + Started(l, x, maxBatch)
  {
    hide B.Batches;
    match x
    case Recv(q) =>
      var m := l.(pending := l.pending + [q]);
      CutItems(m, B.BySize);
      Assoc([], l.pending, [q]);
    case Linger => CutItems(l, B.ByLinger);
    case Close(drained) =>
      CutItems(l.(pending := l.pending + drained, closed := true), B.ByClose(|drained|));
      Assoc([], l.pending, drained);
    case FlushDone =>
      if l.waiting.Some? {
        B.BatchesSnoc(l.spawned, l.waiting.value);
      }
  }

  lemma CutItems(l: B.Loop, t: B.Trigger)
    requires l.waiting.None?
    ensures var c := B.Cut(l, t);
            && |c.spawned| >= |l.spawned|
            && (if |c.spawned| > |l.spawned| then c.spawned[|l.spawned|].batch else []) + Gathered(c) == [] + l.pending
            && B.Batches(c.spawned) ==
               B.Batches(l.spawned) + (if |c.spawned| > |l.spawned| then c.spawned[|l.spawned|].batch else [])
  {
    B.BatchesSnoc(l.spawned, B.Flush(l.pending, t));
    hide B.Batches;
  }

  /** One turn of the loop, in any state in which its items are where the loop takes them to be, is a
      stretch of a run: it leaves as Batched what the loop holds then, and adds to InFlight what it has
      started. */
  lemma TurnIsARun(s: Sys, l: B.Loop, x: B.Input, p: string, maxBatch: nat)
    requires B.Possible(l, x)
    requires CopiesOf(B.ReceivedIn(x), p, Queued) + CopiesOf(Gathered(l), p, Batched) <= s.copies
    ensures var steps, t := TurnSteps(l, x, p, maxBatch), B.Turn(l, x, maxBatch);
            && AllEnabled(s, steps)
            && Exec(s, steps) == s.(copies :=
                 s.copies - CopiesOf(B.ReceivedIn(x), p, Queued) - CopiesOf(Gathered(l), p, Batched)
                 + CopiesOf(Gathered(t), p, Batched) + CopiesOf(Started(l, x, maxBatch), p, InFlight))
  {
    var t := B.Turn(l, x, maxBatch);
    var received, started := B.ReceivedIn(x), Started(l, x, maxBatch);
    TurnItems(l, x, maxBatch);
    CopiesOfConcat(started, Gathered(t), p, Batched);
    CopiesOfConcat(Gathered(l), received, p, Batched);
    hide B.Turn, B.ReceivedIn, Started, Gathered, CopiesOf, MoveAll, Next, Enabled, AllEnabled, Exec;
    MoveAllRuns(s, received, p, Queued, Batched);
    var u := Exec(s, MoveAll(received, p, Queued, Batched));
    TakeOut(s.copies, CopiesOf(received, p, Queued), CopiesOf(received, p, Batched), CopiesOf(Gathered(l), p, Batched),
            CopiesOf(started, p, Batched), CopiesOf(Gathered(t), p, Batched), CopiesOf(started, p, InFlight));
    MoveAllRuns(u, started, p, Batched, InFlight);
    ExecConcat(s, MoveAll(received, p, Queued, Batched), MoveAll(started, p, Batched, InFlight));
  }

  lemma TakeOut(
    m: multiset<Copy>, queued: multiset<Copy>, received: multiset<Copy>, held: multiset<Copy>,
    started: multiset<Copy>, left: multiset<Copy>, flying: multiset<Copy>)
    requires queued + held <= m && started + left == held + received
    ensures started <= m - queued + received
    ensures m - queued + received - started + flying == m - queued - held + left + flying
  {
    forall c: Copy ensures started[c] + left[c] == held[c] + received[c] && queued[c] + held[c] <= m[c] {
      assert (started + left)[c] == (held + received)[c];
    }
  }

  /** All the moves of a history of the loop. */
  function LoopSteps(script: seq<B.Input>, p: string, maxBatch: nat): (steps: seq<Step>)
    requires B.After(script, maxBatch).Some?
    ensures forall st :: st in steps ==> Local(st)
  {
    if script == [] then []
    else
      var n := |script| - 1;
      LoopSteps(script[..n], p, maxBatch) + TurnSteps(B.After(script[..n], maxBatch).value, script[n], p, maxBatch)
  }

  /** Every history of the queue loop is a stretch of a run: all it has received was Queued; what waits
      for a slot and what is not yet cut is Batched, and the batches started are InFlight. */
  lemma {:induction false} LoopIsARun(s: Sys, script: seq<B.Input>, p: string, maxBatch: nat)
    requires B.After(script, maxBatch).Some? && CopiesOf(B.Received(script), p, Queued) <= s.copies
    ensures var steps, l := LoopSteps(script, p, maxBatch), B.After(script, maxBatch).value;
            && AllEnabled(s, steps)
            && Exec(s, steps) == s.(copies :=
                 s.copies - CopiesOf(B.Received(script), p, Queued)
                 + CopiesOf(Gathered(l), p, Batched) + CopiesOf(B.Batches(l.spawned), p, InFlight))
  {
    if script != [] {
      var n := |script| - 1;
      var l, x := B.After(script[..n], maxBatch).value, script[n];
      var received, more := B.Received(script[..n]), B.ReceivedIn(x);
      CopiesOfConcat(received, more, p, Queued);
      TurnItems(l, x, maxBatch);
      CopiesOfConcat(B.Batches(l.spawned), Started(l, x, maxBatch), p, InFlight);
      hide B.Turn, B.ReceivedIn, Started, Gathered, CopiesOf, MoveAll, Next, Enabled, AllEnabled, Exec, TurnSteps, B.Batches;
      LoopIsARun(s, script[..n], p, maxBatch);
      var u := Exec(s, LoopSteps(script[..n], p, maxBatch));
      LoopMore(s.copies, CopiesOf(received, p, Queued), CopiesOf(more, p, Queued), CopiesOf(Gathered(l), p, Batched),
               CopiesOf(B.Batches(l.spawned), p, InFlight), CopiesOf(Gathered(B.Turn(l, x, maxBatch)), p, Batched),
               CopiesOf(Started(l, x, maxBatch), p, InFlight));
      TurnIsARun(u, l, x, p, maxBatch);
      ExecConcat(s, LoopSteps(script[..n], p, maxBatch), TurnSteps(l, x, p, maxBatch));
    }
  }

  lemma LoopMore(
    m: multiset<Copy>, received: multiset<Copy>, more: multiset<Copy>, held: multiset<Copy>, flying: multiset<Copy>,
    now: multiset<Copy>, started: multiset<Copy>)
    requires received + more <= m
    ensures received <= m && more + held <= m - received + held + flying
    ensures m - received + held + flying - more - held + now + started == m - (received + more) + now + (flying + started)
  {
  }

  // ---- Its acknowledgements ---------------------------------------------------------------

  /** The log requests of a flush. */
  function AckFrames(effects: seq<B.Effect>, p: string, len: nat): seq<Frame> {
    if effects == [] then []
    else
      var n := |effects| - 1;
      AckFrames(effects[..n], p, len) +
      (if effects[n].AckWal? then [Frame(AckRec(effects[n].eventId, p, effects[n].disposition), len)] else [])
  }

  lemma {:induction false} AckFramesConcat(a: seq<B.Effect>, b: seq<B.Effect>, p: string, len: nat)
    ensures AckFrames(a + b, p, len) == AckFrames(a, p, len) + AckFrames(b, p, len)
  {
    if b == [] {
      assert a + b == a;
    } else {
      var n := |b| - 1;
      assert (a + b)[..|a + b| - 1] == a + b[..n] && (a + b)[|a + b| - 1] == b[n];
      AckFramesConcat(a, b[..n], p, len);
    }
  }

  lemma {:induction false} AckCopiesConcat(a: seq<Frame>, b: seq<Frame>)
    ensures AckCopies(a + b) == AckCopies(a) + AckCopies(b)
  {
    if b == [] {
      assert a + b == a;
    } else {
      var n := |b| - 1;
      assert (a + b)[..|a + b| - 1] == a + b[..n] && (a + b)[|a + b| - 1] == b[n];
      AckCopiesConcat(a, b[..n]);
    }
  }

  function TimerCopies(batch: seq<B.Queued>, vs: seq<B.Verdict>, p: string): multiset<Copy>
    requires |batch| == |vs|
  {
    if batch == [] then multiset{}
    else
      var n := |batch| - 1;
      TimerCopies(batch[..n], vs[..n], p) + (if vs[n].Retried? then multiset{CopyOf(batch[n], p, RetryTimer)} else multiset{})
  }

  lemma AckFramesOne(e: B.Effect, p: string, len: nat)
    ensures AckFrames([e], p, len) == if e.AckWal? then [Frame(AckRec(e.eventId, p, e.disposition), len)] else []
  {
    assert [e][..0] == [];
  }

  lemma AckCopiesOne(id: string, p: string, d: Disposition, len: nat)
    ensures AckCopies([Frame(AckRec(id, p, d), len)]) == multiset{Copy(id, p, Acking(d))}
  {
    assert [Frame(AckRec(id, p, d), len)][..0] == [];
  }

  lemma AcksOfOne(q: B.Queued, v: B.Verdict, p: string, len: nat)
    ensures AckCopies(AckFrames(B.EffectsOf(q, v), p, len)) ==
            if v.Retried? then multiset{} else multiset{CopyOf(q, p, StageAfter(v))}
  {
    var e := B.EffectsOf(q, v);
    AckFramesOne(e[0], p, len);
    AckCopiesOne(q.event.id, p, Ok, len);
    AckCopiesOne(q.event.id, p, DeadLetter, len);
    if v.DeadLettered? {
      assert e == [e[0]] + [e[1]];
      AckFramesOne(e[1], p, len);
      AckFramesConcat([e[0]], [e[1]], p, len);
    } else {
      assert e == [e[0]];
    }
    hide AckFrames;
  }

  lemma AddUp(a: multiset<Copy>, b: multiset<Copy>, c: multiset<Copy>, x: multiset<Copy>, y: multiset<Copy>)
    requires a + b == c
    ensures (a + x) + (b + y) == c + (x + y)
  {
  }

  /** A flush writes the acknowledgement of exactly the copies it leaves to be acknowledged, so a commit
      of them is one the daemon can make; every other copy is on a retry timer. */
  lemma {:induction false} AcksAreOfItsCopies(batch: seq<B.Queued>, vs: seq<B.Verdict>, p: string, len: nat)
    requires |batch| == |vs|
    ensures AckCopies(AckFrames(B.AllEffects(batch, vs), p, len)) + TimerCopies(batch, vs, p) == CopiesAfter(batch, vs, p)
  {
    if batch == [] {
    } else {
      var n := |batch| - 1;
      var before, more := B.AllEffects(batch[..n], vs[..n]), B.EffectsOf(batch[n], vs[n]);
      AcksAreOfItsCopies(batch[..n], vs[..n], p, len);
      AckFramesConcat(before, more, p, len);
      AckCopiesConcat(AckFrames(before, p, len), AckFrames(more, p, len));
      AcksOfOne(batch[n], vs[n], p, len);
      hide AckFrames, AckCopies, B.AllEffects, B.EffectsOf, StageAfter, CopyOf;
      AddUp(AckCopies(AckFrames(before, p, len)), TimerCopies(batch[..n], vs[..n], p), CopiesAfter(batch[..n], vs[..n], p),
            AckCopies(AckFrames(more, p, len)),
            if vs[n].Retried? then multiset{CopyOf(batch[n], p, RetryTimer)} else multiset{});
    }
  }

  // ---- The sink ---------------------------------------------------------------------------

  lemma {:induction false} DispatchedCount(e: Event, providers: seq<string>, p: string)
    ensures Dispatched(e, providers)[Copy(e.id, p, Dispatching)] == Q.Mentions(providers, p)
  {
    if providers == [] {
    } else {
      DispatchedCount(e, providers[..|providers| - 1], p);
      SplitLast(providers);
    }
  }

  /** What Sink.Append puts on a queue is what the daemon model dispatches: with known providers, the
      queue of p gets one more event of the id for each copy of the pair that the request adds, and none
      unless the log has answered it nil. */
  lemma SinkDispatches(log: State, io: S.AppendIo, e: Event, providers: seq<string>, queues: Q.Queues, p: string)
    requires S.Fits(io, e, providers) && S.Commits(log, io) && io.at.Some?
    requires Members(providers) <= queues.Keys && p in queues
    ensures var i := io.at.value;
            var ok := Commit(log, io.batch, io.ios, io.syncOk).replies[i];
            var after := if S.AppendOk(log, io) then Q.Enqueued(queues, e, Q.Served(providers, queues.Keys)) else queues;
            && p in after && queues[p] <= after[p]
            && Q.CountId(after[p][|queues[p]|..], e.id) == NewCopiesOf(io.batch[i].rec, ok)[Copy(e.id, p, Dispatching)]
  {
    hide Commit;
    CommitReplies(log, io.batch, io.ios, io.syncOk);
    var n := Q.Mentions(providers, p);
    Q.EnqueuedIs(queues, e, providers, p);
    Q.CountIdRepeat(e, n, e.id);
    DispatchedCount(e, providers, p);
    DropPast(queues[p], Q.Repeat(e, n));
    DropPast(queues[p], []);
    assert queues[p] + [] == queues[p];
    hide Q.Enqueued, Q.Served, Q.CountId, Dispatched;
  }

  // ---- The receiver -----------------------------------------------------------------------

  /** Whatever the receiver submits names at least one provider, and known ones only: the half of
      AppendsOk that is not about ids appended before. */
  lemma ReceiverMeetsKnown(
    r: I.Router, known: set<string>, events: seq<Event>, now: int, ios: seq<S.AppendIo>, i: nat)
    requires I.AllAcceptable(r, Some(known), events, now) && S.AppendsOf(events, I.RoutesOf(r, events), ios)
    requires i < |ios| && ios[i].at.Some?
    ensures var rec := ios[i].batch[ios[i].at.value].rec;
            rec.EventRec? && rec.event == events[i] && rec.providers != [] && Members(rec.providers) <= known
  {
    assert S.Fits(ios[i], events[i], I.RoutesOf(r, events)[i]);
    assert I.Acceptable(r, Some(known), events[i], now);
  }

  // ---- Startup ----------------------------------------------------------------------------

  /** What a restart enqueues is what the dispatcher's startup loop does with a snapshot of the replayed
      index: each configured provider's queue gets as many events of an id as there are copies of the
      pair. */
  lemma ReenqueuedIsReplayPending(
    ix: Index, known: set<string>, entries: seq<Wal.PendingEntry>, queues: Q.Queues, id: string, p: string)
    requires Wal.SnapshotOf(entries, ix.Keys, ix) && queues.Keys == known && p in known
    ensures var after := Q.EnqueuedAll(queues, entries);
            && p in after && queues[p] <= after[p]
            && Q.CountId(after[p][|queues[p]|..], id) == Reenqueued(ix, known)[Copy(id, p, Queued)]
  {
    Q.EnqueuedAllIs(queues, entries, p);
    Q.StartupEnqueuesOnce(ix, entries, id, p);
    DropPast(queues[p], Q.Arrivals(entries, p));
    ReenqueuedExactly(ix, known, Copy(id, p, Queued));
  }

  // ---- A dead-letter that is not recorded -------------------------------------------------

  /** An acknowledgement that is not justified removes the last trace of the obligation: a put that gets
      no line on file, then the acknowledgement of the last pending provider, answered nil, and the pair
      is neither delivered nor parked nor pending. */
  lemma FailedPutLosesPair(s: Sys, c: Copy, e: Event, reason: string, permanent: bool, io: D.PutIo, len: nat)
    requires G.Good(s.log) && c.stage == InFlight && c in s.copies && e.id == c.id
    requires c.id in s.log.index && s.log.index[c.id].pending == {c.provider} && !Answered(s, c.id, c.provider)
    requires !(io.writeOk && (DI.PutPoisons(s.dlq, c.provider, c.id, permanent) ==> io.purge.replaceOk))
    ensures var t := Next(s, DeadLetterStep(c, e, reason, permanent, io));
            var ack := CommitStep([Frame(AckRec(c.id, c.provider, DeadLetter), len)], G.Healthy(1), true);
            && Enabled(s, DeadLetterStep(c, e, reason, permanent, io)) && Enabled(t, ack)
            && Commit(t.log, ack.batch, ack.ios, true).replies == [true]
            && !Answered(Next(t, ack), c.id, c.provider) && !Owes(Next(t, ack).log.index, c.id, c.provider)
  {
    var t := Next(s, DeadLetterStep(c, e, reason, permanent, io));
    DeadLetterJustified(s, c, e, reason, permanent, io);
    hide D.Put, DI.Parked, Commit, G.Good;
    AckLosesPair(t, c, len);
  }

  lemma AckLosesPair(t: Sys, c: Copy, len: nat)
    requires G.Good(t.log) && c.(stage := Acking(DeadLetter)) in t.copies
    requires c.id in t.log.index && t.log.index[c.id].pending == {c.provider} && !Answered(t, c.id, c.provider)
    ensures var ack := CommitStep([Frame(AckRec(c.id, c.provider, DeadLetter), len)], G.Healthy(1), true);
            && Enabled(t, ack) && Commit(t.log, ack.batch, ack.ios, true).replies == [true]
            && !Answered(Next(t, ack), c.id, c.provider) && !Owes(Next(t, ack).log.index, c.id, c.provider)
  {
    var f := Frame(AckRec(c.id, c.provider, DeadLetter), len);
    G.AckOne(t.log, c.id, c.provider, DeadLetter, len);
    G.OneCommit(t.log, f);
    CommitReplies(t.log, [f], G.Healthy(1), true);
    hide Commit, DI.Parked, Inv;
    assert [f][..0] == [];
    assert AckCopies([f]) == multiset{Copy(c.id, c.provider, Acking(DeadLetter))};
    assert Submitted(t, [f]);
  }
}
