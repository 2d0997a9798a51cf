/**
 What the calls and the kernel have done in a run, read from its steps: every request reaches the driver, every
 accepted one the list, every cancellation the kernel, and every report tells how the operation ended.
 */
module TransferRuns {
  import opened Options
  import opened TransferProtocol
  import opened TransferMemory
  import opened TransferInvariant
  import opened TransferTheorems
  import opened TransferCounting

  // ---------------------------------------------------------------- no call gets lost

  /** On the way from a call to the driver, from there to the list, and from a cancellation to the kernel. */
  datatype Phase = Requesting | Listing | Cancelling

  predicate During(c: Call, phase: Phase, x: Xid) {
    match phase
    case Requesting => c == SubmitEnter(x) || c == SubmitIo(x)
    case Listing =>
      || c == SubmitReset(x) || c == SubmitInit(x) || c == SubmitLinkNext(x)
      || c == SubmitLinkLast(x) || c == SubmitLinkFirst(x) || c == SubmitCount(x)
    case Cancelling => c == CancelEnter(x) || c == CancelIo(x)
  }

  /** The step is a statement of a call that is at c. */
  predicate Executes(s: State, step: Step, c: Call) {
    step.CallStep? && step.i < |s.threads| && s.threads[step.i].call == c
  }

  /** A submission of x is called; the driver accepts it, at once or for later; a cancellation of x is called. */
  predicate Begins(s: State, step: Step, phase: Phase, x: Xid) {
    match phase
    case Requesting => step.StartSubmit? && step.x == x
    case Listing => Executes(s, step, SubmitIo(x)) && !step.result.Refused?
    case Cancelling => step.StartCancel? && step.x == x
  }

  /** The driver answers to a submission of x; x is put on the list; a cancellation looks whether x is in flight. */
  predicate Ends(s: State, step: Step, phase: Phase, x: Xid) {
    match phase
    case Requesting => Executes(s, step, SubmitIo(x))
    case Listing => Executes(s, step, SubmitCount(x))
    case Cancelling => Executes(s, step, CancelIo(x))
  }

  function Beginnings(states: seq<State>, steps: seq<Step>, phase: Phase, x: Xid): nat
    requires |states| == |steps| + 1
  {
    if steps == [] then 0
    else
      var n := |steps| - 1;
      Beginnings(states[..n + 1], steps[..n], phase, x) + if Begins(states[n], steps[n], phase, x) then 1 else 0
  }

  function Endings(states: seq<State>, steps: seq<Step>, phase: Phase, x: Xid): nat
    requires |states| == |steps| + 1
  {
    if steps == [] then 0
    else
      var n := |steps| - 1;
      Endings(states[..n + 1], steps[..n], phase, x) + if Ends(states[n], steps[n], phase, x) then 1 else 0
  }

  /** The number of threads in the phase. */
  function Underway(threads: seq<Thread>, phase: Phase, x: Xid): nat {
    if threads == [] then 0
    else
      var n := |threads| - 1;
      Underway(threads[..n], phase, x) + if During(threads[n].call, phase, x) then 1 else 0
  }

  lemma {:induction false} UnderwayUpdate(threads: seq<Thread>, i: Tid, th: Thread, phase: Phase, x: Xid)
    requires i < |threads|
    ensures Underway(threads[i := th], phase, x) + (if During(threads[i].call, phase, x) then 1 else 0) ==
            Underway(threads, phase, x) + if During(th.call, phase, x) then 1 else 0
  {
    var n := |threads| - 1;
    if i < n {
      UnderwayUpdate(threads[..n], i, th, phase, x);
      assert threads[i := th][..n] == threads[..n][i := th];
    } else {
      assert threads[i := th][..n] == threads[..n];
    }
  }

  /** If no other thread can be in the phase. */
  lemma {:induction false} UnderwayOnce(threads: seq<Thread>, phase: Phase, x: Xid, i: Tid)
    requires forall j :: 0 <= j < |threads| && During(threads[j].call, phase, x) ==> j == i
    ensures Underway(threads, phase, x) ==
            if i < |threads| && During(threads[i].call, phase, x) then 1 else 0
  {
    if threads != [] {
      UnderwayOnce(threads[..|threads| - 1], phase, x, i);
    }
  }

  /** A statement of a call takes the call into the phase, on in it or out of it. */
  lemma CallMoves(s: State, i: Tid, result: IoResult, phase: Phase, x: Xid)
    requires Inv(s) && Enabled(s, CallStep(i, result))
    ensures i < |ApplyCall(s, i, result).threads|
    ensures var c, c', step := s.threads[i].call, ApplyCall(s, i, result).threads[i].call, CallStep(i, result);
            (if During(c', phase, x) then 1 else 0) + (if Ends(s, step, phase, x) then 1 else 0) ==
            (if During(c, phase, x) then 1 else 0) + if Begins(s, step, phase, x) then 1 else 0
  {
    hide MemoryOk, TypedThreads, ThreadsOk, SubmitsOk, MutexOk, TokenOk, Typed;
    hide IssueIo, ResetCompletion, LinkNext, LinkFirst, CountTransfer, SetSubmitted, RequestAbort;
    match s.threads[i].call
    case SubmitEnter(_) =>
    case SubmitIo(_) =>
    case SubmitReset(_) =>
    case SubmitInit(_) =>
    case SubmitCount(_) =>
    case CancelEnter(_) =>
    case CancelIo(_) =>
    case _ =>
  }

  lemma StepBalances(s: State, step: Step, phase: Phase, x: Xid)
    requires Inv(s) && Enabled(s, step)
    ensures Underway(Apply(s, step).threads, phase, x) + (if Ends(s, step, phase, x) then 1 else 0) ==
            Underway(s.threads, phase, x) + if Begins(s, step, phase, x) then 1 else 0
  {
    hide ApplyRole, ApplyCall, Underway;
    var s' := Apply(s, step);
    hide MemoryOk, TypedThreads, ThreadsOk, SubmitsOk, MutexOk, TokenOk;
    if step.RoleStep? || step.CallStep? || step.StartSubmit? || step.StartCancel? || step.StartWait? {
      var i := step.i;
      UnderwayUpdate(s.threads, i, s'.threads[i], phase, x);
      if step.CallStep? {
        CallMoves(s, i, step.result, phase, x);
      }
    }
  }

  /** Over any run, each phase has begun as often as it has ended, and once more for each thread that is in it. */
  lemma {:induction false} PhasesBalance(states: seq<State>, steps: seq<Step>, phase: Phase, x: Xid)
    requires IsRun(states, steps)
    ensures Beginnings(states, steps, phase, x) ==
            Endings(states, steps, phase, x) + Underway(states[|steps|].threads, phase, x)
  {
    var n := |steps| - 1;
    if steps == [] {
      UnderwayOnce(states[0].threads, phase, x, 0);
    } else {
      assert IsRun(states[..n + 1], steps[..n]);
      PhasesBalance(states[..n + 1], steps[..n], phase, x);
      RunInv(states, steps, n);
      assert Follows(states[n], steps[n], states[n + 1]);
      StepBalances(states[n], steps[n], phase, x);
    }
  }

  /** The end of the second phase is what puts a transfer on the list. */
  lemma {:induction false} ListingsAreSubmissions(states: seq<State>, steps: seq<Step>, x: Xid)
    requires |states| == |steps| + 1
    ensures Endings(states, steps, Listing, x) == Times(states, steps, Submission, x)
  {
    if steps != [] {
      ListingsAreSubmissions(states[..|steps|], steps[..|steps| - 1], x);
    }
  }

  /**
   Over any run, the driver has accepted submissions of a transfer, at once or for later, as often as the transfer
   was put on the list, and once more while the thread in the critical section is on its way there.
   */
  lemma AcceptedIsListed(states: seq<State>, steps: seq<Step>, x: Xid)
    requires IsRun(states, steps)
    ensures var s := states[|steps|];
            Beginnings(states, steps, Listing, x) ==
            Times(states, steps, Submission, x)
            + if During(InnerCall(s.threads, s.mutex), Listing, x) then 1 else 0
  {
    PhasesBalance(states, steps, Listing, x);
    ListingsAreSubmissions(states, steps, x);
    RunInv(states, steps, |steps|);
    hide MemoryOk, SubmitsOk, MutexOk;
    ListingInside(states[|steps|].threads, states[|steps|].mutex, x);
  }

  lemma ListingInside(threads: seq<Thread>, mutex: Option<Tid>, x: Xid)
    requires MutexOk(threads, mutex)
    ensures Underway(threads, Listing, x) == if During(InnerCall(threads, mutex), Listing, x) then 1 else 0
  {
    forall j | 0 <= j < |threads| && During(threads[j].call, Listing, x)
      ensures mutex == Some(j)
    {
      assert InMutex(threads[j]);
    }
    UnderwayOnce(threads, Listing, x, if mutex.Some? then mutex.value else 0);
  }

  /**
   Over any run, the driver has answered to as many submissions of a transfer as were called, or to one less while
   a thread is on its way to it.
   */
  lemma CalledIsRequested(states: seq<State>, steps: seq<Step>, x: Xid)
    requires IsRun(states, steps)
    ensures var threads := states[|steps|].threads;
            Beginnings(states, steps, Requesting, x) ==
            Endings(states, steps, Requesting, x)
            + if exists i :: 0 <= i < |threads| && During(threads[i].call, Requesting, x) then 1 else 0
  {
    PhasesBalance(states, steps, Requesting, x);
    RunInv(states, steps, |steps|);
    hide MemoryOk, MutexOk;
    RequestingOnce(states[|steps|].threads, states[|steps|].mem.flags, x);
  }

  lemma RequestingOnce(threads: seq<Thread>, flags: seq<Flags>, x: Xid)
    requires SubmitsOk(threads, flags)
    ensures Underway(threads, Requesting, x) ==
            if exists i :: 0 <= i < |threads| && During(threads[i].call, Requesting, x) then 1 else 0
  {
    if exists i :: 0 <= i < |threads| && During(threads[i].call, Requesting, x) {
      var i: Tid :| i < |threads| && During(threads[i].call, Requesting, x);
      forall j | 0 <= j < |threads| && During(threads[j].call, Requesting, x)
        ensures j == i
      {
        assert Submitting(threads[j].call, x) && Submitting(threads[i].call, x);
      }
      UnderwayOnce(threads, Requesting, x, i);
    } else {
      UnderwayOnce(threads, Requesting, x, 0);
    }
  }

  /** What the driver's answer does: a refusal nothing at all, and an acceptance nothing but to the operation. */
  lemma AnswerDecides(s: State, i: Tid, x: Xid, result: IoResult, s': State)
    requires Inv(s) && Follows(s, CallStep(i, result), s') && s.threads[i].call == SubmitIo(x)
    ensures result.Refused? ==> s'.mem == s.mem && i < |s'.threads| && s'.threads[i].call == CallLeave
    ensures !result.Refused? ==>
              && x < |s.mem.io| == |s'.mem.io| && s'.mem.list == s.mem.list && s'.mem.flags == s.mem.flags
              && s'.mem.io == s.mem.io[x := if result.Queued? then Pending else Done(result.outcome)]
  {
    hide LinksOk, MembersOk, EventsOk, IoOk, HistoryOk, CoverOk, ReaperOk, ThreadsOk, SubmitsOk, MutexOk, TokenOk;
    assert TypedThread(s.threads[i], |s.mem.info|);
  }

  // ---------------------------------------------------------------- the history, read from the run

  /** What a step adds to the history of x: the program counters, the driver's and the kernel's answers say it. */
  function Grown(h: History, s: State, step: Step, x: Xid): History {
    match step
    case Complete(y, outcome) => if y == x then h.(outcomes := h.outcomes + [outcome]) else h
    case CallStep(i, result) =>
      if Executes(s, step, SubmitIo(x)) && result.Immediate? then h.(outcomes := h.outcomes + [result.outcome])
      else if Executes(s, step, SubmitCount(x)) then h.(submits := h.submits + 1)
      else if Executes(s, step, CancelIo(x)) && x < |s.mem.flags| && s.mem.flags[x].submitted
      then h.(aborts := h.aborts + [(h.submits, h.unlinks)])
      else h
    case RoleStep(i) =>
      if Happens(s, step, Unlinking, x) && x < |s.mem.pub|
      then h.(unlinks := h.unlinks + 1, reports := h.reports + [s.mem.pub[x]])
      else if Happens(s, step, CallbackStart, x) then h.(callbacks := h.callbacks + 1)
      else h
    case _ => h
  }

  /** The step has recorded what it should, and stored nothing else in the transfers, unless it fetches a result. */
  ghost predicate Grows(s: State, step: Step, m: Memory, x: Xid) {
    && x < |s.mem.hist| == |m.hist|
    && m.info == s.mem.info && m.hist[x] == Grown(s.mem.hist[x], s, step, x)
    && ((step.RoleStep? && step.i < |s.threads| && s.threads[step.i].role.FetchResult?) || m.pub == s.mem.pub)
  }

  lemma IoGrows(s: State, i: Tid, result: IoResult, x: Xid)
    requires Inv(s) && Enabled(s, CallStep(i, result)) && x < |s.mem.info| && s.threads[i].call.SubmitIo?
    ensures Grows(s, CallStep(i, result), ApplyCall(s, i, result).mem, x)
  {
    hide LinksOk, MembersOk, EventsOk, IoOk, HistoryOk, CoverOk, ReaperOk, ThreadsOk, SubmitsOk, MutexOk, TokenOk;
    assert TypedThread(s.threads[i], |s.mem.info|);
  }

  lemma CountGrows(s: State, i: Tid, result: IoResult, x: Xid)
    requires Inv(s) && Enabled(s, CallStep(i, result)) && x < |s.mem.info| && s.threads[i].call.SubmitCount?
    ensures Grows(s, CallStep(i, result), ApplyCall(s, i, result).mem, x)
  {
    hide LinksOk, MembersOk, EventsOk, IoOk, HistoryOk, CoverOk, ReaperOk, ThreadsOk, SubmitsOk, MutexOk, TokenOk;
    assert TypedThread(s.threads[i], |s.mem.info|);
  }

  lemma CancelGrows(s: State, i: Tid, result: IoResult, x: Xid)
    requires Inv(s) && Enabled(s, CallStep(i, result)) && x < |s.mem.info| && s.threads[i].call.CancelIo?
    ensures Grows(s, CallStep(i, result), ApplyCall(s, i, result).mem, x)
  {
    hide LinksOk, MembersOk, EventsOk, IoOk, HistoryOk, CoverOk, ReaperOk, ThreadsOk, SubmitsOk, MutexOk, TokenOk;
    assert TypedThread(s.threads[i], |s.mem.info|);
  }

  lemma UnlinkGrows(s: State, i: Tid, x: Xid)
    requires Inv(s) && Enabled(s, RoleStep(i)) && x < |s.mem.info| && s.threads[i].role.Unlink?
    ensures Grows(s, RoleStep(i), ApplyRole(s, i).mem, x)
  {
    hide LinksOk, MembersOk, EventsOk, IoOk, HistoryOk, CoverOk, ReaperOk, ThreadsOk, SubmitsOk, MutexOk, TokenOk;
    hide UnlinkPointers;
    assert TypedThread(s.threads[i], |s.mem.info|);
  }

  lemma CallbackGrows(s: State, i: Tid, x: Xid)
    requires Inv(s) && Enabled(s, RoleStep(i)) && x < |s.mem.info| && s.threads[i].role.CallCallback?
    ensures Grows(s, RoleStep(i), ApplyRole(s, i).mem, x)
  {
    hide LinksOk, MembersOk, EventsOk, IoOk, HistoryOk, CoverOk, ReaperOk, ThreadsOk, SubmitsOk, MutexOk, TokenOk;
    assert TypedThread(s.threads[i], |s.mem.info|);
    var y := s.threads[i].role.x;
    assert ApplyRole(s, i).mem == if s.mem.info[y].hasCallback then CountCallback(s.mem, y) else s.mem;
    hide ApplyRole;
  }

  lemma StepGrows(s: State, step: Step, x: Xid)
    requires Inv(s) && Enabled(s, step) && x < |s.mem.info|
    ensures Grows(s, step, Apply(s, step).mem, x)
  {
    hide LinksOk, MembersOk, EventsOk, IoOk, HistoryOk, CoverOk, ReaperOk, ThreadsOk, SubmitsOk, MutexOk, TokenOk;
    hide ApplyRole, ApplyCall;
    match step
    case RoleStep(i) =>
      if s.threads[i].role.Unlink? {
        UnlinkGrows(s, i, x);
      } else if s.threads[i].role.CallCallback? {
        CallbackGrows(s, i, x);
      } else {
        OtherRoleStepsCountNothing(s, i);
      }
    case CallStep(i, result) =>
      if s.threads[i].call.SubmitIo? {
        IoGrows(s, i, result, x);
      } else if s.threads[i].call.SubmitCount? {
        CountGrows(s, i, result, x);
      } else if s.threads[i].call.CancelIo? {
        CancelGrows(s, i, result, x);
      } else {
        OtherCallStepsCountNothing(s, i, result);
      }
    case _ =>
  }

  function HistoryOf(states: seq<State>, steps: seq<Step>, x: Xid): History
    requires |states| == |steps| + 1
  {
    if steps == [] then History(0, 0, 0, [], [], [])
    else
      var n := |steps| - 1;
      Grown(HistoryOf(states[..n + 1], steps[..n], x), states[n], steps[n], x)
  }

  /** The recorded history is the one read from the run, so that nothing else enters it. */
  lemma {:induction false} RunHistory(states: seq<State>, steps: seq<Step>, x: Xid)
    requires IsRun(states, steps) && x < |states[0].mem.info|
    ensures states[|steps|].mem.info == states[0].mem.info
    ensures x < |states[|steps|].mem.hist| && states[|steps|].mem.hist[x] == HistoryOf(states, steps, x)
  {
    var n := |steps| - 1;
    if steps != [] {
      assert IsRun(states[..n + 1], steps[..n]);
      RunHistory(states[..n + 1], steps[..n], x);
      RunInv(states, steps, n);
      assert Follows(states[n], steps[n], states[n + 1]);
      StepGrows(states[n], steps[n], x);
      hide IsRun, Inv, Enabled, Apply, Grown;
    }
  }

  // ---------------------------------------------------------------- what is reported

  /** The report of an operation of the kind that ended so. */
  predicate Tells(r: Report, kind: TransferType, outcome: Outcome) {
    && (r.status == Completed <==> outcome.Success?)
    && (r.status == Cancelled <==> outcome == Aborted)
    && (r.status == Error <==> outcome == Failed)
    && (outcome.Success? && kind == Control ==> r.actualLength == outcome.transferred + 8)
    && (outcome.Success? && kind != Control ==> r.actualLength == outcome.transferred)
    && (!outcome.Success? ==> r.actualLength == 0)
  }

  /**
   Over any run, whatever has been reported of a transfer tells how the operation of the same submission ended,
   as the driver or the kernel said; of that of the last submission it may not have been told yet.
   */
  lemma ReportsTellOutcomes(states: seq<State>, steps: seq<Step>, x: Xid)
    requires IsRun(states, steps) && x < |states[0].mem.info|
    ensures var h := HistoryOf(states, steps, x);
            && |h.reports| == h.unlinks <= |h.outcomes| <= h.unlinks + 1
            && forall k :: 0 <= k < |h.reports| ==> Tells(h.reports[k], states[0].mem.info[x].kind, h.outcomes[k])
  {
    RunHistory(states, steps, x);
    assert Reachable(states[|steps|]);
    ExactlyOnce(states[|steps|], x);
  }

  /** A callback that starts finds a report in its transfer. */
  function SeenMore(seen: seq<Report>, s: State, step: Step, x: Xid): seq<Report> {
    if Happens(s, step, CallbackStart, x) && x < |s.mem.pub| then seen + [s.mem.pub[x]] else seen
  }

  /** The reports that the callbacks of x have found when they started. */
  function Seen(states: seq<State>, steps: seq<Step>, x: Xid): seq<Report>
    requires |states| == |steps| + 1
  {
    if steps == [] then []
    else
      var n := |steps| - 1;
      SeenMore(Seen(states[..n + 1], steps[..n], x), states[n], steps[n], x)
  }

  predicate Due(s: State, x: Xid) {
    CallbackDue(ReaperRole(s.threads, s.holder), x)
  }

  /** A callback is due only since x was taken off the list, and nothing has been stored in the transfer since. */
  ghost predicate DueMoves(s: State, step: Step, s': State, x: Xid) {
    && (Happens(s, step, CallbackStart, x) ==> Due(s, x) && !Due(s', x))
    && (Due(s', x) ==>
          || Happens(s, step, Unlinking, x)
          || (Due(s, x) && !(step.RoleStep? && step.i < |s.threads| && s.threads[step.i].role.FetchResult?)))
  }

  lemma RoleDue(s: State, i: Tid, x: Xid)
    requires Inv(s) && Enabled(s, RoleStep(i))
    ensures DueMoves(s, RoleStep(i), ApplyRole(s, i), x)
  {
    hide MemoryOk, TypedThreads, ThreadsOk, SubmitsOk, MutexOk, Typed;
    hide FillHandles, StoreReport, UnlinkTransfer, CountCallback, PostCompletion;
    match s.threads[i].role
    case AwaitToken(_) =>
    case AwaitAny(_) =>
    case FindTest(_, _, _, _) =>
    case FetchResult(_, _) =>
    case Unlink(_, _) =>
    case UnlinkLeave(_, _) =>
    case CallCallback(_, _) =>
    case ReleaseToken =>
    case _ =>
  }

  lemma CallDue(s: State, i: Tid, result: IoResult, x: Xid)
    requires Inv(s) && Enabled(s, CallStep(i, result))
    ensures DueMoves(s, CallStep(i, result), ApplyCall(s, i, result), x)
  {
    hide MemoryOk, TypedThreads, ThreadsOk, SubmitsOk, MutexOk, TokenOk, Typed;
    hide IssueIo, ResetCompletion, LinkNext, LinkFirst, CountTransfer, SetSubmitted, RequestAbort;
    match s.threads[i].call
    case SubmitEnter(_) =>
    case SubmitIo(_) =>
    case CallLeave =>
    case _ =>
  }

  lemma DueStep(s: State, step: Step, x: Xid)
    requires Inv(s) && Enabled(s, step)
    ensures DueMoves(s, step, Apply(s, step), x)
  {
    hide ApplyRole, ApplyCall, MemoryOk, SubmitsOk, MutexOk;
    match step
    case RoleStep(i) => RoleDue(s, i, x);
    case CallStep(i, result) => CallDue(s, i, result, x);
    case StartWait(i, _) => assert !HoldsToken(s.threads[i].role);
    case _ =>
  }

  /** What the callbacks have found so far, and what a callback that is due will find. */
  ghost predicate SeenOk(h: History, seen: seq<Report>, found: Report, due: bool) {
    && |h.reports| == h.unlinks == h.callbacks + (if due then 1 else 0)
    && seen == h.reports[..h.callbacks]
    && (due ==> found == h.reports[|h.reports| - 1])
  }

  lemma SeenStep(h: History, seen: seq<Report>, found: Report, due: bool, unlinking: bool, starting: bool,
                 h': History, seen': seq<Report>, found': Report, due': bool)
    requires SeenOk(h, seen, found, due) && |h'.reports| == h'.unlinks == h'.callbacks + (if due' then 1 else 0)
    requires h'.reports == if unlinking then h.reports + [found] else h.reports
    requires h'.callbacks == if starting then h.callbacks + 1 else h.callbacks
    requires seen' == if starting then seen + [found] else seen
    requires starting ==> due
    requires due' ==> found' == found && (unlinking || due)
    ensures SeenOk(h', seen', found', due')
  {
  }

  lemma GrownParts(h: History, s: State, step: Step, x: Xid)
    requires x < |s.mem.pub|
    ensures var h' := Grown(h, s, step, x);
            && h'.reports == (if Happens(s, step, Unlinking, x) then h.reports + [s.mem.pub[x]] else h.reports)
            && h'.callbacks == (if Happens(s, step, CallbackStart, x) then h.callbacks + 1 else h.callbacks)
    ensures Happens(s, step, Unlinking, x) ==> !s.threads[step.i].role.FetchResult?
  {
  }

  /** One more step. */
  lemma MoreSeen(s: State, step: Step, s': State, x: Xid, h: History, seen: seq<Report>)
    requires Inv(s) && Follows(s, step, s') && x < |s.mem.info| && x < |s.mem.pub| && x < |s'.mem.pub|
    requires SeenOk(h, seen, s.mem.pub[x], Due(s, x))
    requires var h' := Grown(h, s, step, x); |h'.reports| == h'.unlinks == h'.callbacks + if Due(s', x) then 1 else 0
    ensures SeenOk(Grown(h, s, step, x), SeenMore(seen, s, step, x), s'.mem.pub[x], Due(s', x))
  {
    StepGrows(s, step, x);
    DueStep(s, step, x);
    GrownParts(h, s, step, x);
    hide Inv, Enabled, Apply, Grown, Happens, Due, SeenOk;
    SeenStep(h, seen, s.mem.pub[x], Due(s, x), Happens(s, step, Unlinking, x), Happens(s, step, CallbackStart, x),
             Grown(h, s, step, x), SeenMore(seen, s, step, x), s'.mem.pub[x], Due(s', x));
  }

  lemma {:induction false} SeenSoFar(states: seq<State>, steps: seq<Step>, x: Xid)
    requires IsRun(states, steps) && x < |states[0].mem.info| && states[0].mem.info[x].hasCallback
    ensures var s := states[|steps|];
            && x < |s.mem.pub|
            && SeenOk(HistoryOf(states, steps, x), Seen(states, steps, x), s.mem.pub[x], Due(s, x))
  {
    var n := |steps| - 1;
    HistoryFacts(states, steps, x);
    hide Inv, Due, SeenOk, Enabled, Apply, Grown, SeenMore;
    if steps == [] {
      NoneDue(states[0], x);
    } else {
      assert IsRun(states[..n + 1], steps[..n]);
      SeenSoFar(states[..n + 1], steps[..n], x);
      HistoryFacts(states[..n + 1], steps[..n], x);
      RunInv(states, steps, n);
      assert Follows(states[n], steps[n], states[n + 1]);
      MoreSeen(states[n], steps[n], states[n + 1], x, HistoryOf(states[..n + 1], steps[..n], x),
               Seen(states[..n + 1], steps[..n], x));
    }
  }

  lemma HistoryFacts(states: seq<State>, steps: seq<Step>, x: Xid)
    requires IsRun(states, steps) && x < |states[0].mem.info|
    ensures var h, s := HistoryOf(states, steps, x), states[|steps|];
            && s.mem.info == states[0].mem.info && x < |s.mem.info| && x < |s.mem.pub| && |h.reports| == h.unlinks
            && (s.mem.info[x].hasCallback ==> h.unlinks == h.callbacks + if Due(s, x) then 1 else 0)
  {
    RunHistory(states, steps, x);
    assert Reachable(states[|steps|]);
    ExactlyOnce(states[|steps|], x);
  }

  lemma NoneDue(s: State, x: Xid)
    requires Init(s) && x < |s.mem.pub|
    ensures SeenOk(History(0, 0, 0, [], [], []), [], s.mem.pub[x], Due(s, x))
  {
  }

  /**
   Over any run, each callback of a transfer has found, in the transfer, the report of its own submission: it tells
   how that operation ended.
   */
  lemma CallbacksSeeOutcomes(states: seq<State>, steps: seq<Step>, x: Xid)
    requires IsRun(states, steps) && x < |states[0].mem.info| && states[0].mem.info[x].hasCallback
    ensures var seen, h := Seen(states, steps, x), HistoryOf(states, steps, x);
            && |seen| == h.callbacks <= |h.outcomes|
            && forall k :: 0 <= k < |seen| ==> Tells(seen[k], states[0].mem.info[x].kind, h.outcomes[k])
  {
    SeenSoFar(states, steps, x);
    ReportsTellOutcomes(states, steps, x);
  }

  // ---------------------------------------------------------------- the event loop

  /** The event loop has been stopped, and not been reset since. */
  function Stopped(steps: seq<Step>): bool {
    if steps == [] then false
    else
      var step := steps[|steps| - 1];
      if step.StopLoop? then true else if step.ResetLoop? then false else Stopped(steps[..|steps| - 1])
  }

  lemma LoopEventStep(s: State, step: Step)
    requires Inv(s) && Enabled(s, step)
    ensures Apply(s, step).mem.loopStopped ==
            if step.StopLoop? then true else if step.ResetLoop? then false else s.mem.loopStopped
  {
    hide MemoryOk, TypedThreads, ThreadsOk, SubmitsOk, MutexOk, TokenOk, Typed, ApplyRole, ApplyCall;
    match step
    case RoleStep(i) => RoleLeavesLoopEvent(s, i);
    case CallStep(i, result) => CallLeavesLoopEvent(s, i, result);
    case _ =>
  }

  lemma RoleLeavesLoopEvent(s: State, i: Tid)
    requires Inv(s) && Enabled(s, RoleStep(i))
    ensures ApplyRole(s, i).mem.loopStopped == s.mem.loopStopped
  {
    hide MemoryOk, TypedThreads, ThreadsOk, SubmitsOk, MutexOk, TokenOk, Typed;
    hide WokenRole, TestedRole, WalkHandles, UnlinkPointers, FinishedReport;
    match s.threads[i].role
    case Snapshot(_) =>
    case FetchResult(_, _) =>
    case Unlink(_, _) =>
    case CallCallback(_, _) =>
    case Post(_, _) =>
    case _ =>
  }

  lemma CallLeavesLoopEvent(s: State, i: Tid, result: IoResult)
    requires Inv(s) && Enabled(s, CallStep(i, result))
    ensures ApplyCall(s, i, result).mem.loopStopped == s.mem.loopStopped
  {
    hide MemoryOk, TypedThreads, ThreadsOk, SubmitsOk, MutexOk, TokenOk, Typed;
    match s.threads[i].call
    case SubmitIo(_) =>
    case SubmitLinkNext(_) =>
    case SubmitLinkFirst(_) =>
    case CancelIo(_) =>
    case _ =>
  }

  /** In any run, the event that ends the event loop is signalled exactly from a stop to the next reset. */
  lemma {:induction false} LoopEventOverRuns(states: seq<State>, steps: seq<Step>)
    requires IsRun(states, steps)
    ensures Signalled(states[|steps|].mem, LoopStopped) <==> Stopped(steps)
  {
    var n := |steps| - 1;
    if steps != [] {
      assert IsRun(states[..n + 1], steps[..n]);
      LoopEventOverRuns(states[..n + 1], steps[..n]);
      RunInv(states, steps, n);
      assert Follows(states[n], steps[n], states[n + 1]);
      LoopEventStep(states[n], steps[n]);
    }
  }
}
