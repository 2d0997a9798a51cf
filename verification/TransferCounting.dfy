/**
 Exactly once, counted in the steps of a run: the histories of the transfers are the numbers of statements
 that threads have executed, and nothing else enters the result.
 */
module TransferCounting {
  import opened TransferProtocol
  import opened TransferMemory
  import opened TransferInvariant
  import opened TransferTheorems

  /** What can happen to a transfer: it is put on the list, taken off, or its callback starts. */
  datatype Happening = Submission | Unlinking | CallbackStart

  /** The step makes it happen to transfer x. */
  predicate Happens(s: State, step: Step, what: Happening, x: Xid) {
    match what
    case Submission => step.CallStep? && step.i < |s.threads| && s.threads[step.i].call == SubmitCount(x)
    case Unlinking =>
      && step.RoleStep? && step.i < |s.threads|
      && s.threads[step.i].role.Unlink? && s.threads[step.i].role.x == x
    case CallbackStart =>
      && step.RoleStep? && step.i < |s.threads| && s.threads[step.i].role.CallCallback? && s.threads[step.i].role.x == x
      && x < |s.mem.info| && s.mem.info[x].hasCallback
  }

  /** How often it has happened to x. */
  function Times(states: seq<State>, steps: seq<Step>, what: Happening, x: Xid): nat
    requires |states| == |steps| + 1
  {
    if steps == [] then 0
    else
      var n := |steps| - 1;
      Times(states[..n + 1], steps[..n], what, x) + if Happens(states[n], steps[n], what, x) then 1 else 0
  }

  /** The history of x, as numbers. */
  function Recorded(m: Memory, what: Happening, x: Xid): nat {
    if x >= |m.hist| then 0
    else
      match what
      case Submission => m.hist[x].submits
      case Unlinking => m.hist[x].unlinks
      case CallbackStart => m.hist[x].callbacks
  }

  ghost predicate Records(s: State, step: Step, s': State, what: Happening, x: Xid) {
    && s'.mem.info == s.mem.info
    && Recorded(s'.mem, what, x) == Recorded(s.mem, what, x) + if Happens(s, step, what, x) then 1 else 0
  }

  /** The history stays as it is, apart from what the code does not count. */
  ghost predicate SameCounts(m: Memory, m': Memory) {
    && m'.info == m.info && |m'.hist| == |m.hist|
    && forall x :: 0 <= x < |m.hist| ==>
         && m'.hist[x].submits == m.hist[x].submits && m'.hist[x].unlinks == m.hist[x].unlinks
         && m'.hist[x].callbacks == m.hist[x].callbacks
  }

  lemma UnlinkRecords(s: State, i: Tid, what: Happening, x: Xid)
    requires Inv(s) && Enabled(s, RoleStep(i)) && s.threads[i].role.Unlink?
    ensures Records(s, RoleStep(i), ApplyRole(s, i), what, x)
  {
    hide LinksOk, MembersOk, EventsOk, IoOk, HistoryOk, CoverOk;
    hide ReaperOk, ThreadsOk, SubmitsOk, MutexOk, TokenOk, UnlinkPointers;
    assert TypedThread(s.threads[i], |s.mem.info|);
  }

  lemma CallbackCounted(m: Memory, y: Xid, what: Happening, x: Xid)
    requires y < |m.hist|
    ensures Recorded(CountCallback(m, y), what, x) ==
            Recorded(m, what, x) + if what.CallbackStart? && x == y then 1 else 0
  {
  }

  lemma CallbackRecords(s: State, i: Tid, what: Happening, x: Xid)
    requires Inv(s) && Enabled(s, RoleStep(i)) && s.threads[i].role.CallCallback?
    ensures Records(s, RoleStep(i), ApplyRole(s, i), what, x)
  {
    hide LinksOk, MembersOk, EventsOk, IoOk, HistoryOk, CoverOk;
    hide ReaperOk, ThreadsOk, SubmitsOk, MutexOk, TokenOk, Recorded;
    assert TypedThread(s.threads[i], |s.mem.info|);
    var y := s.threads[i].role.x;
    CallbackCounted(s.mem, y, what, x);
    assert ApplyRole(s, i).mem == if s.mem.info[y].hasCallback then CountCallback(s.mem, y) else s.mem;
  }

  lemma OtherRoleStepsCountNothing(s: State, i: Tid)
    requires Inv(s) && Enabled(s, RoleStep(i)) && !s.threads[i].role.Unlink? && !s.threads[i].role.CallCallback?
    ensures ApplyRole(s, i).mem.hist == s.mem.hist && ApplyRole(s, i).mem.info == s.mem.info
    ensures !s.threads[i].role.FetchResult? ==> ApplyRole(s, i).mem.pub == s.mem.pub
  {
    hide MemoryOk, TypedThreads, ThreadsOk, SubmitsOk, MutexOk, TokenOk, Typed;
    hide WokenRole, TestedRole, UnlinkTransfer, CountCallback;
    match s.threads[i].role
    case Snapshot(_) =>
    case FetchResult(_, _) =>
    case Post(_, _) =>
    case _ =>
  }

  lemma SubmitRecords(s: State, i: Tid, result: IoResult, what: Happening, x: Xid)
    requires Inv(s) && Enabled(s, CallStep(i, result)) && s.threads[i].call.SubmitCount?
    ensures Records(s, CallStep(i, result), ApplyCall(s, i, result), what, x)
  {
    hide LinksOk, MembersOk, EventsOk, IoOk, HistoryOk, CoverOk, ReaperOk, ThreadsOk, SubmitsOk, MutexOk, TokenOk;
    assert TypedThread(s.threads[i], |s.mem.info|);
  }

  lemma KernelCallsCountNothing(s: State, i: Tid, result: IoResult)
    requires Inv(s) && Enabled(s, CallStep(i, result)) && (s.threads[i].call.SubmitIo? || s.threads[i].call.CancelIo?)
    ensures SameCounts(s.mem, ApplyCall(s, i, result).mem)
  {
    hide LinksOk, MembersOk, EventsOk, IoOk, HistoryOk, CoverOk, ReaperOk, ThreadsOk, SubmitsOk, MutexOk, TokenOk;
    assert TypedThread(s.threads[i], |s.mem.info|);
  }

  lemma OtherCallStepsCountNothing(s: State, i: Tid, result: IoResult)
    requires Inv(s) && Enabled(s, CallStep(i, result))
    requires !s.threads[i].call.SubmitCount? && !s.threads[i].call.SubmitIo? && !s.threads[i].call.CancelIo?
    ensures ApplyCall(s, i, result).mem.hist == s.mem.hist && ApplyCall(s, i, result).mem.info == s.mem.info
    ensures ApplyCall(s, i, result).mem.pub == s.mem.pub
  {
    hide MemoryOk, TypedThreads, ThreadsOk, SubmitsOk, MutexOk, TokenOk, Typed;
    hide CountTransfer, IssueIo, RequestAbort;
    match s.threads[i].call
    case SubmitLinkNext(_) =>
    case SubmitLinkFirst(_) =>
    case SubmitReset(_) =>
    case SubmitFlag(_) =>
    case _ =>
  }

  lemma CompletionCountsNothing(s: State, y: Xid, outcome: Outcome)
    requires Inv(s) && Enabled(s, Complete(y, outcome))
    ensures SameCounts(s.mem, CompleteIo(s.mem, y, outcome))
  {
    hide LinksOk, MembersOk, EventsOk, IoOk, HistoryOk, CoverOk, ReaperOk, ThreadsOk, SubmitsOk, MutexOk, TokenOk;
  }

  lemma StepRecords(s: State, step: Step, what: Happening, x: Xid)
    requires Inv(s) && Enabled(s, step)
    ensures Records(s, step, Apply(s, step), what, x)
  {
    hide MemoryOk, TypedThreads, ThreadsOk, SubmitsOk, MutexOk, TokenOk, ApplyRole, ApplyCall;
    match step
    case Complete(y, outcome) => CompletionCountsNothing(s, y, outcome);
    case RoleStep(i) =>
      if s.threads[i].role.Unlink? {
        UnlinkRecords(s, i, what, x);
      } else if s.threads[i].role.CallCallback? {
        CallbackRecords(s, i, what, x);
      } else {
        OtherRoleStepsCountNothing(s, i);
      }
    case CallStep(i, result) =>
      if s.threads[i].call.SubmitCount? {
        SubmitRecords(s, i, result, what, x);
      } else if s.threads[i].call.SubmitIo? || s.threads[i].call.CancelIo? {
        KernelCallsCountNothing(s, i, result);
      } else {
        OtherCallStepsCountNothing(s, i, result);
      }
    case _ =>
  }

  /** In any run, the history of a transfer is what its steps have made happen. */
  lemma {:induction false} HistoryIsTimes(states: seq<State>, steps: seq<Step>, what: Happening, x: Xid)
    requires IsRun(states, steps)
    ensures Recorded(states[|steps|].mem, what, x) == Times(states, steps, what, x)
    ensures states[|steps|].mem.info == states[0].mem.info
  {
    var n := |steps| - 1;
    if steps != [] {
      assert IsRun(states[..n + 1], steps[..n]);
      HistoryIsTimes(states[..n + 1], steps[..n], what, x);
      RunInv(states, steps, n);
      assert Follows(states[n], steps[n], states[n + 1]);
      StepRecords(states[n], steps[n], what, x);
    }
  }

  /**
   Over any run, a transfer has been taken off the list as often as it was put on it, less one if it is there
   now, and its callback, if it has one, has started as often as it was taken off, less one if that is due.
   */
  lemma ExactlyOnceOverRuns(states: seq<State>, steps: seq<Step>, x: Xid)
    requires IsRun(states, steps) && x < |states[0].mem.info|
    ensures var s, s' := states[0], states[|steps|];
            && Times(states, steps, Submission, x) ==
               Times(states, steps, Unlinking, x) + (if x in s'.mem.list then 1 else 0)
            && (s.mem.info[x].hasCallback ==>
                  Times(states, steps, Unlinking, x) ==
                  Times(states, steps, CallbackStart, x)
                  + (if CallbackDue(ReaperRole(s'.threads, s'.holder), x) then 1 else 0))
            && (!s.mem.info[x].hasCallback ==> Times(states, steps, CallbackStart, x) == 0)
  {
    HistoryIsTimes(states, steps, Submission, x);
    HistoryIsTimes(states, steps, Unlinking, x);
    HistoryIsTimes(states, steps, CallbackStart, x);
    var s' := states[|steps|];
    assert Reachable(s');
    ExactlyOnce(s', x);
  }
}
