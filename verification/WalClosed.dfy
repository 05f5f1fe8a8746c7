/** A rotation that has closed the active segment and then fails leaves the log without a file to write
    to. When exactly that happens, and that nothing but a restart mends it. */
module WalClosed {
  import opened WalState
  import opened WalInvariant
  import opened WalRefinement
  import opened Seqs

  // ---- One commit -------------------------------------------------------------------------

  /** Writing this frame starts a rotation that closes the active segment and gets no further. */
  predicate Breaks(s: State, f: Frame, io: Io)
    requires s.segments != []
  {
    && Active(s).open && Active(s).size + f.len > s.maxSegmentBytes
    && io.syncOk && !(io.closeOk && io.createOk)
  }

  predicate BreaksAt(s: State, batch: seq<Frame>, ios: seq<Io>, i: nat)
    requires s.segments != [] && |batch| == |ios|
  {
    i < |batch| && Breaks(WriteAll(s, batch[..i], ios[..i]).state, batch[i], ios[i])
  }

  /** Writing the batch breaks the log at some request. */
  ghost predicate BatchBreaks(s: State, batch: seq<Frame>, ios: seq<Io>)
    requires s.segments != [] && |batch| == |ios|
  {
    exists i :: BreaksAt(s, batch, ios, i)
  }

  lemma WriteOneOpen(w: Written, f: Frame, io: Io)
    requires w.state.segments != [] && |w.outs| == |w.synced|
    ensures WriteOne(w, f, io).state.segments != []
    ensures Active(WriteOne(w, f, io).state).open <==> Active(w.state).open && !Breaks(w.state, f, io)
  {
  }

  lemma BreaksAtNext(s: State, batch: seq<Frame>, ios: seq<Io>, i: nat)
    requires s.segments != [] && |batch| == |ios| && batch != []
    ensures var n := |batch| - 1;
            BreaksAt(s, batch, ios, i) <==>
            if i == n then Breaks(WriteAll(s, batch[..n], ios[..n]).state, batch[n], ios[n])
            else BreaksAt(s, batch[..n], ios[..n], i)
  {
    var n := |batch| - 1;
    if i < n {
      TakeTake(batch, i, n);
      TakeTake(ios, i, n);
    }
  }

  lemma {:induction false} WriteAllOpen(s: State, batch: seq<Frame>, ios: seq<Io>)
    requires s.segments != [] && |batch| == |ios|
    ensures Active(WriteAll(s, batch, ios).state).open <==> Active(s).open && !BatchBreaks(s, batch, ios)
  {
    if batch == [] {
    } else {
      var n := |batch| - 1;
      WriteAllOpen(s, batch[..n], ios[..n]);
      WriteOneOpen(WriteAll(s, batch[..n], ios[..n]), batch[n], ios[n]);
      forall i: nat ensures BreaksAt(s, batch, ios, i) <==>
        if i == n then Breaks(WriteAll(s, batch[..n], ios[..n]).state, batch[n], ios[n])
        else BreaksAt(s, batch[..n], ios[..n], i)
      {
        BreaksAtNext(s, batch, ios, i);
      }
      assert !BreaksAt(s, batch[..n], ios[..n], n);
      hide WriteOne, BreaksAt, Breaks;
    }
  }

  /** A commit leaves an open log open exactly when none of its rotations closes the active segment and
      then fails; a closed one stays closed. */
  lemma CommitOpen(s: State, batch: seq<Frame>, ios: seq<Io>, syncOk: bool)
    requires Inv(s) && |batch| == |ios|
    ensures var t := Commit(s, batch, ios, syncOk).state;
            t.segments != [] && (Active(t).open <==> Active(s).open && !BatchBreaks(s, batch, ios))
  {
    WriteAllOpen(s, batch, ios);
    AppliedInv(s, batch, ios, syncOk);
    var a, f := Applied(s, batch, ios, syncOk), Flushed(s, batch, ios, syncOk);
    StripNumbers(a.segments, f.segments);
    assert Strip(a.segments)[|a.segments| - 1] == Strip(f.segments)[|f.segments| - 1];
    hide Applied, WriteAll, Inv, BatchBreaks;
    GcInv(a);
  }

  lemma {:induction false} ClosedWrites(s: State, batch: seq<Frame>, ios: seq<Io>)
    requires s.segments != [] && |batch| == |ios| && !Active(s).open
    ensures var w := WriteAll(s, batch, ios); w.state == s && forall i :: 0 <= i < |batch| ==> w.outs[i].err
  {
    if batch == [] {
    } else {
      ClosedWrites(s, batch[..|batch| - 1], ios[..|batch| - 1]);
    }
  }

  lemma {:induction false} ApplyNothing(s: State, batch: seq<Frame>, outs: seq<Outcome>, synced: seq<bool>, finalOk: bool)
    requires |batch| == |outs| == |synced| && forall i :: 0 <= i < |outs| ==> outs[i].err
    ensures ApplyAll(s, batch, outs, synced, finalOk) == s
  {
    if batch == [] {
    } else {
      var n := |batch| - 1;
      ApplyNothing(s, batch[..n], outs[..n], synced[..n], finalOk);
    }
  }

  /** A closed log answers no request of a commit nil, and the commit changes nothing. */
  lemma ClosedCommit(s: State, batch: seq<Frame>, ios: seq<Io>, syncOk: bool)
    requires s.segments != [] && Settled(s) && |batch| == |ios| && !Active(s).open
    ensures Commit(s, batch, ios, syncOk).state == s
    ensures forall i :: 0 <= i < |batch| ==> !Commit(s, batch, ios, syncOk).replies[i]
  {
    ClosedWrites(s, batch, ios);
    var w := WriteAll(s, batch, ios);
    ApplyNothing(s, batch, w.outs, w.synced, FinalOk(s, batch, ios, syncOk));
  }

  // ---- Whole runs -------------------------------------------------------------------------

  ghost predicate StepBreaks(s: State, st: Step) {
    Enabled(s, st) && st.CommitStep? && BatchBreaks(s, st.batch, st.ios)
  }

  ghost predicate Writable(s: State) {
    s.segments != [] && Active(s).open
  }

  lemma NextOpen(s: State, st: Step)
    requires Inv(s) && Enabled(s, st)
    ensures Writable(Next(s, st)) <==> st.CrashStep? || (Writable(s) && !StepBreaks(s, st))
  {
    match st
    case CommitStep(batch, ios, syncOk) => CommitOpen(s, batch, ios, syncOk);
    case CrashStep(cut) =>
      FoundFindable(s, cut);
      OpenRefines(Found(s, cut), s.maxSegmentBytes);
  }

  /** In every run the log can be written to exactly as long as no commit since the start, or since the
      last restart, had a rotation that closed the active segment and then failed. */
  lemma {:induction false} OpenExactly(states: seq<State>, steps: seq<Step>, maxSegmentBytes: int, since: nat, i: nat)
    requires IsRun(states, steps, maxSegmentBytes) && since <= i < |states|
    requires (since == 0 || steps[since - 1].CrashStep?) && OnlyCommits(steps, since, i)
    ensures Writable(states[i]) <==> NoneBreaks(states, steps, since, i)
  {
    hide Inv, Settled, Contiguous, StepBreaks, Enabled, Next, NoneBreaks, OnlyCommits;
    if i == 0 {
      FreshInv(maxSegmentBytes);
      NothingYet(states, steps, i);
    } else {
      RunInvariant(states, steps, maxSegmentBytes, i - 1);
      RunStep(states, steps, maxSegmentBytes, i - 1);
      hide IsRun;
      NextOpen(states[i - 1], steps[i - 1]);
      if i > since {
        SplitRange(states, steps, since, i - 1);
        OpenExactly(states, steps, maxSegmentBytes, since, i - 1);
      } else {
        NothingYet(states, steps, i);
      }
    }
  }

  ghost predicate OnlyCommits(steps: seq<Step>, since: nat, i: nat) {
    forall k :: since <= k < i && k < |steps| ==> steps[k].CommitStep?
  }

  ghost predicate NoneBreaks(states: seq<State>, steps: seq<Step>, since: nat, i: nat)
    requires i <= |steps| <= |states|
  {
    forall k :: since <= k < i ==> !StepBreaks(states[k], steps[k])
  }

  lemma NothingYet(states: seq<State>, steps: seq<Step>, i: nat)
    requires i <= |steps| <= |states|
    ensures NoneBreaks(states, steps, i, i)
  {
  }

  lemma RunStep(states: seq<State>, steps: seq<Step>, maxSegmentBytes: int, k: nat)
    requires IsRun(states, steps, maxSegmentBytes) && k < |steps|
    ensures |states| == |steps| + 1 && Enabled(states[k], steps[k]) && states[k + 1] == Next(states[k], steps[k])
  {
    hide Enabled, Next;
  }

  lemma SplitRange(states: seq<State>, steps: seq<Step>, since: nat, n: nat)
    requires since <= n < |steps| <= |states|
    ensures NoneBreaks(states, steps, since, n + 1) <==>
            NoneBreaks(states, steps, since, n) && !StepBreaks(states[n], steps[n])
    ensures OnlyCommits(steps, since, n + 1) <==> OnlyCommits(steps, since, n) && steps[n].CommitStep?
  {
    hide StepBreaks;
  }

  /** Once it cannot be written to, the log answers every request of every commit with an error, and
      keeps its state, until the next restart. */
  lemma {:induction false} ClosedUntilRestart(states: seq<State>, steps: seq<Step>, maxSegmentBytes: int, i: nat, j: nat)
    requires IsRun(states, steps, maxSegmentBytes) && i <= j < |steps| && !Writable(states[i])
    requires OnlyCommits(steps, i, j + 1)
    ensures Enabled(states[j], steps[j]) && states[j + 1] == states[i]
    ensures var st := steps[j];
            forall r :: 0 <= r < |st.batch| ==> !Commit(states[j], st.batch, st.ios, st.syncOk).replies[r]
  {
    RunInvariant(states, steps, maxSegmentBytes, j);
    hide Inv, Settled, Contiguous, Commit;
    if i < j {
      ClosedUntilRestart(states, steps, maxSegmentBytes, i, j - 1);
    }
    var st := steps[j];
    ClosedCommit(states[j], st.batch, st.ios, st.syncOk);
  }
}
