/**
 The cost of the handle array over runs of the transfer protocol: the submissions, unlinks and snapshots of a run are
 the events that HandleList counts.
 */
module HandleCost {
  import opened Options
  import opened TransferProtocol
  import opened TransferMemory
  import opened TransferInvariant
  import opened TransferTheorems
  import opened TransferCounting
  import opened TransferProgress
  import opened HandleList

  /** What a step means for the handle array: line 425, line 484, and the reservation at line 571. */
  function EventOf(s: State, step: Step): seq<Event> {
    if step.CallStep? && step.i < |s.threads| && s.threads[step.i].call.SubmitCount? then [Submitted]
    else if step.RoleStep? && step.i < |s.threads| && s.threads[step.i].role.Unlink? then [Reaped]
    else if step.RoleStep? && step.i < |s.threads| && s.threads[step.i].role.Snapshot? then [Iteration]
    else []
  }

  function EventsOf(states: seq<State>, steps: seq<Step>): seq<Event>
    requires |states| == |steps| + 1
  {
    if steps == [] then []
    else
      var n := |steps| - 1;
      EventsOf(states[..n + 1], steps[..n]) + EventOf(states[n], steps[n])
  }

  function Change(events: seq<Event>): int {
    if events == [] then 0
    else
      match events[0]
      case Submitted => 1
      case Reaped => -1
      case Iteration => 0
  }

  lemma CallStepCount(s: State, i: Tid, result: IoResult)
    requires Inv(s) && Enabled(s, CallStep(i, result))
    ensures ApplyCall(s, i, result).mem.count == s.mem.count + Change(EventOf(s, CallStep(i, result)))
  {
    hide MemoryOk, TypedThreads, ThreadsOk, SubmitsOk, MutexOk, TokenOk, Typed;
    if !Submits(s, CallStep(i, result)) {
      CallLeavesMemory(s, i, result);
      hide ApplyCall;
    }
  }

  lemma RoleStepCount(s: State, i: Tid)
    requires Inv(s) && Enabled(s, RoleStep(i))
    ensures ApplyRole(s, i).mem.count == s.mem.count + Change(EventOf(s, RoleStep(i)))
  {
    hide MemoryOk, TypedThreads, ThreadsOk, SubmitsOk, MutexOk, TokenOk, Typed;
    hide WokenRole, TestedRole, WalkHandles, UnlinkPointers, FinishedReport;
    match s.threads[i].role
    case Snapshot(_) =>
    case Unlink(_, _) =>
    case CallCallback(_, _) =>
    case Post(_, _) =>
    case _ =>
  }

  /** tran_count changes by what the event says. */
  lemma StepCount(s: State, step: Step)
    requires Inv(s) && Enabled(s, step)
    ensures Apply(s, step).mem.count == s.mem.count + Change(EventOf(s, step))
  {
    hide MemoryOk, TypedThreads, ThreadsOk, SubmitsOk, MutexOk, TokenOk, ApplyRole, ApplyCall;
    match step
    case RoleStep(i) => RoleStepCount(s, i);
    case CallStep(i, result) => CallStepCount(s, i, result);
    case _ =>
  }

  lemma AfterOneMore(events: seq<Event>, e: Event)
    ensures After(events + [e]).0 == After(events).0 + Change([e])
    ensures Changes(events + [e]) == Changes(events) + if e.Iteration? then 0 else 1
  {
    assert (events + [e])[..|events|] == events;
  }

  lemma {:induction false} SumStep(hist: seq<History>, hist': seq<History>, y: Option<Xid>)
    requires |hist'| == |hist|
    requires forall x :: 0 <= x < |hist| ==> hist'[x].submits == hist[x].submits + if y == Some(x) then 1 else 0
    ensures SumSubmits(hist') == SumSubmits(hist) + if y.Some? && y.value < |hist| then 1 else 0
  {
    if hist != [] {
      SumStep(hist[..|hist| - 1], hist'[..|hist| - 1], y);
    }
  }

  lemma {:induction false} SumUnlinkStep(hist: seq<History>, hist': seq<History>, y: Option<Xid>)
    requires |hist'| == |hist|
    requires forall x :: 0 <= x < |hist| ==> hist'[x].unlinks == hist[x].unlinks + if y == Some(x) then 1 else 0
    ensures SumUnlinks(hist') == SumUnlinks(hist) + if y.Some? && y.value < |hist| then 1 else 0
  {
    if hist != [] {
      SumUnlinkStep(hist[..|hist| - 1], hist'[..|hist| - 1], y);
    }
  }

  /** The transfer that a step puts on the list, or takes off it. */
  function Moved(s: State, step: Step, what: Happening): Option<Xid> {
    match what
    case Submission =>
      if step.CallStep? && step.i < |s.threads| && s.threads[step.i].call.SubmitCount?
      then Some(s.threads[step.i].call.x) else None
    case Unlinking =>
      if step.RoleStep? && step.i < |s.threads| && s.threads[step.i].role.Unlink?
      then Some(s.threads[step.i].role.x) else None
    case CallbackStart => None
  }

  lemma MovedExists(s: State, step: Step, what: Happening)
    requires Inv(s)
    ensures Moved(s, step, what).Some? ==> Moved(s, step, what).value < |s.mem.hist|
    ensures Typed(s.mem)
  {
    hide LinksOk, MembersOk, EventsOk, IoOk, HistoryOk, CoverOk, ReaperOk, ThreadsOk, SubmitsOk, MutexOk, TokenOk;
    if step.CallStep? || step.RoleStep? {
      assert step.i < |s.threads| ==> TypedThread(s.threads[step.i], |s.mem.info|);
    }
  }

  lemma SumsOf(s: State, step: Step, s': State)
    requires |s'.mem.hist| == |s.mem.hist|
    requires forall x :: 0 <= x < |s.mem.hist| ==>
               Records(s, step, s', Submission, x) && Records(s, step, s', Unlinking, x)
    requires Moved(s, step, Submission).Some? ==> Moved(s, step, Submission).value < |s.mem.hist|
    requires Moved(s, step, Unlinking).Some? ==> Moved(s, step, Unlinking).value < |s.mem.hist|
    ensures SumSubmits(s'.mem.hist) + SumUnlinks(s'.mem.hist) ==
            SumSubmits(s.mem.hist) + SumUnlinks(s.mem.hist) + Changes(EventOf(s, step))
  {
    hide SumSubmits, SumUnlinks;
    forall x | 0 <= x < |s.mem.hist|
      ensures s'.mem.hist[x].submits == s.mem.hist[x].submits + if Moved(s, step, Submission) == Some(x) then 1 else 0
      ensures s'.mem.hist[x].unlinks == s.mem.hist[x].unlinks + if Moved(s, step, Unlinking) == Some(x) then 1 else 0
    {
      assert Records(s, step, s', Submission, x) && Records(s, step, s', Unlinking, x);
    }
    SumStep(s.mem.hist, s'.mem.hist, Moved(s, step, Submission));
    SumUnlinkStep(s.mem.hist, s'.mem.hist, Moved(s, step, Unlinking));
  }

  lemma HistoryKept(s: State, step: Step)
    requires Inv(s) && Enabled(s, step) && Inv(Apply(s, step))
    ensures |Apply(s, step).mem.hist| == |s.mem.hist|
  {
    StepRecords(s, step, Submission, 0);
    MovedExists(s, step, Submission);
    MovedExists(Apply(s, step), step, Submission);
    hide Inv, Apply, Enabled;
  }

  /** The sums of the histories grow with the events that are not iterations. */
  lemma StepSums(s: State, step: Step)
    requires Inv(s) && Enabled(s, step)
    ensures var m, m' := s.mem, Apply(s, step).mem;
            SumSubmits(m'.hist) + SumUnlinks(m'.hist) ==
            SumSubmits(m.hist) + SumUnlinks(m.hist) + Changes(EventOf(s, step))
  {
    hide MemoryOk, TypedThreads, ThreadsOk, SubmitsOk, MutexOk, TokenOk;
    hide Apply, Records, SumSubmits, SumUnlinks, Moved, EventOf;
    StepKeepsInv(s, step);
    HistoryKept(s, step);
    MovedExists(s, step, Submission);
    MovedExists(s, step, Unlinking);
    forall x | 0 <= x < |s.mem.hist|
      ensures Records(s, step, Apply(s, step), Submission, x) && Records(s, step, Apply(s, step), Unlinking, x)
    {
      StepRecords(s, step, Submission, x);
      StepRecords(s, step, Unlinking, x);
    }
    SumsOf(s, step, Apply(s, step));
  }

  lemma {:induction false} FreshSums(hist: seq<History>)
    requires forall x :: 0 <= x < |hist| ==> hist[x].submits == 0 && hist[x].unlinks == 0
    ensures SumSubmits(hist) == SumUnlinks(hist) == 0
  {
    if hist != [] {
      FreshSums(hist[..|hist| - 1]);
    }
  }

  lemma StartCounts(s: State)
    requires Init(s)
    ensures s.mem.count == 0 && SumSubmits(s.mem.hist) == SumUnlinks(s.mem.hist) == 0
  {
    FreshSums(s.mem.hist);
  }

  lemma FollowingCounts(s: State, step: Step, s': State)
    requires Inv(s) && Follows(s, step, s')
    ensures s'.mem.count == s.mem.count + Change(EventOf(s, step))
    ensures SumSubmits(s'.mem.hist) + SumUnlinks(s'.mem.hist) ==
            SumSubmits(s.mem.hist) + SumUnlinks(s.mem.hist) + Changes(EventOf(s, step))
  {
    hide Inv, Apply, Enabled, SumSubmits, SumUnlinks, EventOf;
    StepCount(s, step);
    StepSums(s, step);
  }

  /** In any run, the count of the events is tran_count, and they are as many as submissions and unlinks together. */
  lemma {:induction false} EventsAreTheRun(states: seq<State>, steps: seq<Step>)
    requires IsRun(states, steps)
    ensures After(EventsOf(states, steps)).0 == states[|steps|].mem.count
    ensures var hist := states[|steps|].mem.hist;
            Changes(EventsOf(states, steps)) == SumSubmits(hist) + SumUnlinks(hist)
  {
    hide Inv, Init, Follows, SumSubmits, SumUnlinks, EventOf, Change;
    if steps == [] {
      StartCounts(states[0]);
    } else {
      var n := |steps| - 1;
      assert IsRun(states[..n + 1], steps[..n]);
      EventsAreTheRun(states[..n + 1], steps[..n]);
      RunInv(states, steps, n);
      FollowingCounts(states[n], steps[n], states[n + 1]);
      AtMostOne(states[n], steps[n]);
      OneStep(EventsOf(states[..n + 1], steps[..n]), EventOf(states[n], steps[n]));
    }
  }

  lemma AtMostOne(s: State, step: Step)
    ensures |EventOf(s, step)| <= 1
  {
  }

  lemma OneStep(events: seq<Event>, more: seq<Event>)
    requires |more| <= 1
    ensures After(events + more).0 == After(events).0 + Change(more)
    ensures Changes(events + more) == Changes(events) + Changes(more)
  {
    if more == [] {
      assert events + more == events;
    } else {
      assert more == [more[0]];
      AfterOneMore(events, more[0]);
    }
  }

  /**
   Over any run, with the array reserved for two more than tran_count at each snapshot, the slots reallocated are
   linear in the submissions and unlinks, however many iterations the reapers make.
   */
  lemma ReallocationIsLinearOverRuns(states: seq<State>, steps: seq<Step>)
    requires IsRun(states, steps)
    ensures var hist := states[|steps|].mem.hist;
            TotalCost(EventsOf(states, steps)) <= 24 + 6 * (SumSubmits(hist) + SumUnlinks(hist))
    ensures forall k :: 0 <= k <= |steps| ==>
              After(EventsOf(states[..k + 1], steps[..k])).0 == states[k].mem.count
  {
    hide Follows, Init, EventsOf, After, TotalCost, SumSubmits, SumUnlinks;
    EventsAreTheRun(states, steps);
    ReallocationIsLinear(EventsOf(states, steps));
    forall k | 0 <= k <= |steps|
      ensures After(EventsOf(states[..k + 1], steps[..k])).0 == states[k].mem.count
    {
      assert IsRun(states[..k + 1], steps[..k]);
      EventsAreTheRun(states[..k + 1], steps[..k]);
    }
  }
}
