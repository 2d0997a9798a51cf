/**
 Progress of the transfer protocol: reaping cannot stall, is bounded once no transfers are submitted,
 and a wait that returns has seen its transfer out of flight.
 */
module TransferProgress {
  import opened Options
  import opened TransferProtocol
  import opened TransferMemory
  import opened TransferInvariant
  import opened TransferTheorems

  // ---------------------------------------------------------------- progress

  /** The thread can execute its next statement, in user code included, without waiting for anything. */
  predicate CanMove(s: State, i: Tid) {
    && i < |s.threads|
    && (if s.threads[i].call.NoCall? then RoleEnabled(s, s.threads[i].role) else CallEnabled(s, s.threads[i].call))
  }

  /** A thread in the critical section never waits in it. */
  lemma OwnerCanMove(s: State, i: Tid)
    requires Inv(s) && s.mutex == Some(i)
    ensures CanMove(s, i)
  {
    hide MemoryOk, SubmitsOk, TokenOk;
    assert InMutex(s.threads[i]);
  }

  /**
   While some thread waits for an event that is not signalled and a transfer in flight has finished in
   the kernel, reaping cannot stall: either the token is free for that thread to take, or the thread
   with the token can move, or it waits for the mutex and the owner of the mutex can move.
   */
  lemma Progress(s: State, i: Tid, x: Xid)
    requires Reachable(s) && i < |s.threads| && s.threads[i].call.NoCall?
    requires s.threads[i].role.AwaitToken? || s.threads[i].role.AwaitAny?
    requires !Signalled(s.mem, s.threads[i].role.target)
    requires x in s.mem.list && x < |s.mem.io| && s.mem.io[x].Done?
    ensures s.holder.None? ==> s.threads[i].role.AwaitToken? && CanMove(s, i)
    ensures s.holder.Some? ==>
              || CanMove(s, s.holder.value)
              || (s.mutex.Some? && s.mutex.value != s.holder.value && CanMove(s, s.mutex.value))
  {
    ReachableInv(s);
    RoleFacts(s, i);
    if s.mutex.Some? {
      OwnerCanMove(s, s.mutex.value);
    }
    if s.holder.Some? {
      var h := s.holder.value;
      HolderMoves(s, h, x);
    }
  }

  /** A call waits for nothing but the critical section, and the thread inside that can move. */
  lemma CallsProgress(s: State, i: Tid)
    requires Reachable(s) && i < |s.threads| && !s.threads[i].call.NoCall?
    ensures CanMove(s, i) || (s.mutex.Some? && s.mutex.value != i && CanMove(s, s.mutex.value))
    ensures CanMove(s, i) ==> WellTyped(s) && forall result :: Enabled(s, CallStep(i, result))
  {
    ReachableInv(s);
    hide MemoryOk, SubmitsOk, TokenOk;
    if s.mutex.Some? {
      OwnerCanMove(s, s.mutex.value);
    }
  }

  /**
   A thread that is not in the library may wait for any transfer or for the end of the event loop, and cancel; it may
   submit a transfer that is neither in flight nor being submitted by another. From a callback it may submit and cancel.
   */
  lemma UserMayCall(s: State, i: Tid, x: Xid)
    requires Reachable(s) && i < |s.threads| && x < |s.mem.info| && s.threads[i].call == NoCall
    requires s.threads[i].role == Outside || s.threads[i].role.InCallback?
    ensures WellTyped(s) && x < |s.mem.flags|
    ensures s.threads[i].role == Outside ==>
              Enabled(s, StartWait(i, CompletionEvent(x))) && Enabled(s, StartWait(i, LoopStopped))
    ensures Enabled(s, StartCancel(i, x)) && Enabled(s, StopLoop) && Enabled(s, ResetLoop)
    ensures s.mem.flags[x].submitted || Enabled(s, StartSubmit(i, x))
            || exists j :: 0 <= j < |s.threads| && CallTransfer(s.threads[j].call) == Some(x)
  {
    ReachableInv(s);
    hide LinksOk, MembersOk, EventsOk, IoOk, HistoryOk, CoverOk, ReaperOk, SubmitsOk, MutexOk, TokenOk;
  }

  /** A pending operation may end in any way. */
  lemma KernelMayComplete(s: State, x: Xid, outcome: Outcome)
    requires Reachable(s) && x < |s.mem.io| && s.mem.io[x] == Pending
    ensures WellTyped(s) && Enabled(s, Complete(x, outcome))
  {
    ReachableInv(s);
    hide LinksOk, MembersOk, EventsOk, IoOk, HistoryOk, CoverOk, ReaperOk, SubmitsOk, MutexOk, TokenOk;
  }

  /** There is a start for any number of threads and any transfers. */
  lemma Starts(n: nat, info: seq<Info>)
    ensures exists s :: Reachable(s) && |s.threads| == n && s.mem.info == info
  {
    var k := |info|;
    var m := Memory(info, seq(k, _ => Link(None, None)), seq(k, _ => Flags(false, true)), seq(k, _ => NeverIssued),
                    seq(k, _ => Report(Completed, 0)), None, None, 0, [], false, false, [], 0,
                    seq(k, _ => History(0, 0, 0, [], [], [])));
    var s := State(seq(n, _ => Thread(Outside, NoCall)), None, true, None, m);
    var steps: seq<Step> := [];
    assert IsRun([s], steps) && [s][|steps|] == s;
  }

  lemma HolderMoves(s: State, h: Tid, x: Xid)
    requires Inv(s) && s.holder == Some(h)
    requires x in s.mem.list && x < |s.mem.io| && s.mem.io[x].Done?
    ensures CanMove(s, h) || (s.mutex.Some? && s.mutex.value != h)
  {
    assert h < |s.threads| && HoldsToken(s.threads[h].role);
    assert s.mutex == Some(h) ==> InMutex(s.threads[h]);
    if s.threads[h].call.NoCall? {
      RoleFacts(s, h);
      match s.threads[h].role
      case AwaitAny(t) =>
        if s.mutex.None? && !CanMove(s, h) {
          NothingCovered(s.mem, t);
        }
      case FetchResult(t, y) =>
        FetchEnabled(s.mem, t, y, InnerCall(s.threads, s.mutex));
      case _ =>
    }
  }

  lemma FetchEnabled(m: Memory, t: Handle, y: Xid, c: Call)
    requires MemoryOk(m, c, FetchResult(t, y))
    ensures y < |m.io| && !m.io[y].Pending?
  {
  }

  // ---------------------------------------------------------------- bounded reaping

  /** The step puts a transfer on the list or announces one. */
  ghost predicate Submits(s: State, step: Step) {
    && step.CallStep? && step.i < |s.threads|
    && (s.threads[step.i].call.SubmitCount? || s.threads[step.i].call.SubmitSignal?)
  }

  /** A bound on the statements the reaper executes before it gives the token back, unless transfers are submitted. */
  function Rank(m: Memory, r: Role): int {
    Quota(m.count) + RoleRank(m.count, m.listUpdated, r)
  }

  function Quota(n: int): int {
    n * n + 40 * n
  }

  lemma QuotaStep(n: int)
    ensures Quota(n) == Quota(n - 1) + 2 * n + 39
    ensures 0 <= n ==> 0 <= Quota(n)
  {
  }

  lemma {:induction false} QuotaGrows(n: nat, k: nat)
    requires n < k
    ensures Quota(n) + 2 * k + 39 <= Quota(k)
    decreases k
  {
    QuotaStep(k);
    if n < k - 1 {
      QuotaGrows(n, k - 1);
    }
  }

  function RoleRank(n: int, updated: bool, r: Role): int {
    var flag := if updated then 20 else 0;
    match r
    case Unlink(_, _) => 1
    case UnlinkEnter(_, _) => 2
    case FetchResult(_, _) => 3
    case FindNext(_, _, k, _) => 2 * (n - k) + 3
    case FindTest(_, _, k, _) => 2 * (n - k) + 4
    case FindFirst(_, _) => 2 * n + 5
    case AwaitAny(_) => 2 * n + (if updated then 32 else 6)
    case SnapLeave(_) => 2 * n + (if updated then 33 else 7)
    case SnapReset(_) => 2 * n + 8 + flag
    case Snapshot(_) => 2 * n + 9 + flag
    case SnapEnter(_) => 2 * n + 10 + flag
    case PostLeave(_) => 2 * n + 11 + flag
    case Post(_, _) => 2 * n + 12 + flag
    case PostEnter(_, _) => 2 * n + 13 + flag
    case InCallback(_, _) => 2 * n + 14 + flag
    case CallCallback(_, _) => 2 * n + 15 + flag
    case UnlinkLeave(_, _) => 2 * n + 16 + flag
    case _ => 0
  }

  lemma RankNonNegative(m: Memory, c: Call, r: Role)
    requires MemoryOk(m, c, r)
    ensures 0 <= Rank(m, r)
  {
    hide MembersOk, EventsOk, IoOk, HistoryOk, CoverOk, Quota;
    QuotaStep(m.count);
  }

  lemma ReaperFacts(m: Memory, c: Call, r: Role)
    requires MemoryOk(m, c, r)
    ensures Typed(m) && m.count == |m.list|
    ensures r.Unlink? ==> 0 < m.count
    ensures r.FindTest? ==>
              r.n < m.count && m.count > 0 && TestedRole(m, r.target, r.h, r.n, r.cur) != SnapEnter(r.target)
    ensures r.FindNext? ==> r.n + 1 < m.count
    ensures r.AwaitAny? ==> 2 <= |m.handles| && m.handles[1] == ListUpdated
  {
    hide MembersOk, EventsOk, IoOk, HistoryOk, CoverOk;
    if r.FindNext? {
      FindNextOk(m, r.target, r.h, r.n, r.at, c);
    }
  }

  ghost predicate Lowers(s: State, h: Tid)
    requires Inv(s) && Enabled(s, RoleStep(h))
  {
    var s' := ApplyRole(s, h);
    && h < |s'.threads|
    && (|| s'.holder == None
        || (s'.holder == s.holder && Rank(s'.mem, s'.threads[h].role) < Rank(s.mem, s.threads[h].role)))
  }

  /** The reaper waits for any of its handles, or looks for the transfer whose event fired. */
  predicate Searches(r: Role) {
    r.AwaitAny? || r.FindFirst? || r.FindTest? || r.FindNext?
  }

  lemma SearchLowersRank(s: State, h: Tid)
    requires Inv(s) && s.holder == Some(h) && Enabled(s, RoleStep(h))
    requires Searches(s.threads[h].role)
    ensures Lowers(s, h)
  {
    hide MemoryOk, SubmitsOk, MutexOk, TokenOk, Quota;
    RoleFacts(s, h);
    ReaperFacts(s.mem, InnerCall(s.threads, s.mutex), s.threads[h].role);
  }

  lemma WaitLowersRank(s: State, h: Tid)
    requires Inv(s) && s.holder == Some(h) && Enabled(s, RoleStep(h))
    requires RoleTransfer(s.threads[h].role).None? && !s.threads[h].role.PostLeave?
    requires !Searches(s.threads[h].role)
    ensures Lowers(s, h)
  {
    hide MemoryOk, SubmitsOk, MutexOk, TokenOk, Quota;
    RoleFacts(s, h);
    ReaperFacts(s.mem, InnerCall(s.threads, s.mutex), s.threads[h].role);
  }

  lemma FetchLowersRank(s: State, h: Tid)
    requires Inv(s) && s.holder == Some(h) && Enabled(s, RoleStep(h))
    requires s.threads[h].role.FetchResult? || s.threads[h].role.UnlinkEnter?
    ensures Lowers(s, h)
  {
    hide MemoryOk, SubmitsOk, MutexOk, TokenOk, Quota;
    RoleFacts(s, h);
    ReaperFacts(s.mem, InnerCall(s.threads, s.mutex), s.threads[h].role);
  }

  lemma CallbackLowersRank(s: State, h: Tid)
    requires Inv(s) && s.holder == Some(h) && Enabled(s, RoleStep(h))
    requires s.threads[h].role.UnlinkLeave? || s.threads[h].role.CallCallback? || s.threads[h].role.InCallback?
    ensures Lowers(s, h)
  {
    hide MemoryOk, SubmitsOk, MutexOk, TokenOk, Quota;
    RoleFacts(s, h);
    ReaperFacts(s.mem, InnerCall(s.threads, s.mutex), s.threads[h].role);
  }

  lemma PostLowersRank(s: State, h: Tid)
    requires Inv(s) && s.holder == Some(h) && Enabled(s, RoleStep(h))
    requires s.threads[h].role.PostEnter? || s.threads[h].role.Post? || s.threads[h].role.PostLeave?
    ensures Lowers(s, h)
  {
    hide MemoryOk, SubmitsOk, MutexOk, TokenOk, Quota;
    RoleFacts(s, h);
    ReaperFacts(s.mem, InnerCall(s.threads, s.mutex), s.threads[h].role);
  }

  lemma UnlinkLowersRank(s: State, h: Tid)
    requires Inv(s) && s.holder == Some(h) && Enabled(s, RoleStep(h)) && s.threads[h].role.Unlink?
    ensures Lowers(s, h)
  {
    hide MemoryOk, SubmitsOk, MutexOk, TokenOk, Quota;
    RoleFacts(s, h);
    ReaperFacts(s.mem, InnerCall(s.threads, s.mutex), s.threads[h].role);
    QuotaStep(s.mem.count);
  }

  /** Every statement of the reaper lowers its rank or gives the token back. */
  lemma ReaperStepLowersRank(s: State, h: Tid)
    requires Inv(s) && s.holder == Some(h) && Enabled(s, RoleStep(h))
    ensures Lowers(s, h)
  {
    hide MemoryOk, SubmitsOk, MutexOk, TokenOk, Lowers;
    var r := s.threads[h].role;
    if r.Unlink? {
      UnlinkLowersRank(s, h);
    } else if r.FetchResult? || r.UnlinkEnter? {
      FetchLowersRank(s, h);
    } else if r.UnlinkLeave? || r.CallCallback? || r.InCallback? {
      CallbackLowersRank(s, h);
    } else if r.PostEnter? || r.Post? || r.PostLeave? {
      PostLowersRank(s, h);
    } else if Searches(r) {
      SearchLowersRank(s, h);
    } else {
      WaitLowersRank(s, h);
    }
  }

  /** The step does not move the rank of the reaper h, nor its token. */
  ghost predicate Leaves(s: State, s': State, h: Tid) {
    && h < |s'.threads| == |s.threads| && s'.holder == s.holder
    && s'.threads[h].role == s.threads[h].role
    && s'.mem.count == s.mem.count && s'.mem.listUpdated == s.mem.listUpdated
  }

  lemma CallLeavesMemory(s: State, i: Tid, result: IoResult)
    requires Inv(s) && Enabled(s, CallStep(i, result)) && !Submits(s, CallStep(i, result))
    ensures var s' := ApplyCall(s, i, result);
            s'.holder == s.holder && s'.mem.count == s.mem.count && s'.mem.listUpdated == s.mem.listUpdated
  {
    hide MemoryOk, TypedThreads, ThreadsOk, SubmitsOk, MutexOk, TokenOk, Typed;
    match s.threads[i].call
    case SubmitIo(_) =>
    case SubmitLinkNext(_) =>
    case SubmitLinkFirst(_) =>
    case CancelIo(_) =>
    case _ =>
  }

  lemma CallLeavesRank(s: State, i: Tid, result: IoResult, h: Tid)
    requires Inv(s) && s.holder == Some(h) && Enabled(s, CallStep(i, result)) && !Submits(s, CallStep(i, result))
    ensures Leaves(s, ApplyCall(s, i, result), h)
  {
    CallLeavesMemory(s, i, result);
    hide MemoryOk, SubmitsOk, MutexOk, ApplyCall;
  }

  /** A thread without the token changes nothing but its own role and, with it, the token. */
  lemma RoleLeavesRank(s: State, i: Tid, h: Tid)
    requires Inv(s) && Enabled(s, RoleStep(i)) && s.holder == Some(h) && i != h
    ensures ApplyRole(s, i) == SetRole(s, i, Outside) && Leaves(s, ApplyRole(s, i), h)
  {
    hide MemoryOk, SubmitsOk, MutexOk;
    assert !HoldsToken(s.threads[i].role);
  }

  /** Nobody else moves it, unless a transfer is submitted. */
  lemma OtherStepLeavesRank(s: State, step: Step, h: Tid)
    requires Inv(s) && s.holder == Some(h) && Enabled(s, step) && step != RoleStep(h) && !Submits(s, step)
    ensures Leaves(s, Apply(s, step), h)
  {
    hide MemoryOk, SubmitsOk, MutexOk;
    match step
    case RoleStep(i) => RoleLeavesRank(s, i, h);
    case CallStep(i, result) => CallLeavesRank(s, i, result, h);
    case StartWait(i, _) => assert HoldsToken(s.threads[h].role);
    case _ =>
  }

  // ---------------------------------------------------------------- over runs

  /** A stretch of a run during which h holds the token and no transfer is put on the list or announced. */
  ghost predicate QuietStretch(states: seq<State>, steps: seq<Step>, h: Tid) {
    && |states| == |steps| + 1
    && Inv(states[0])
    && (forall k :: 0 <= k < |steps| ==> Follows(states[k], steps[k], states[k + 1]) && !Submits(states[k], steps[k]))
    && (forall k :: 0 <= k < |states| ==> states[k].holder == Some(h))
  }

  function ReaperSteps(steps: seq<Step>, h: Tid): nat {
    if steps == [] then 0
    else ReaperSteps(steps[..|steps| - 1], h) + (if steps[|steps| - 1] == RoleStep(h) then 1 else 0)
  }

  /** However the other threads interleave, the reaper's statements are paid for by its rank. */
  lemma {:induction false} RankPaysForSteps(states: seq<State>, steps: seq<Step>, h: Tid)
    requires QuietStretch(states, steps, h)
    ensures var s, s' := states[0], states[|steps|];
            && Inv(s') && h < |s.threads| && h < |s'.threads|
            && Rank(s'.mem, s'.threads[h].role) + ReaperSteps(steps, h) <= Rank(s.mem, s.threads[h].role)
  {
    hide ThreadsOk, MutexOk, SubmitsOk, MemoryOk, TypedThreads;
    if |steps| > 0 {
      var n := |steps| - 1;
      assert QuietStretch(states[..n + 1], steps[..n], h);
      RankPaysForSteps(states[..n + 1], steps[..n], h);
      var s, s' := states[n], states[n + 1];
      assert Follows(s, steps[n], s');
      StepKeepsInv(s, steps[n]);
      if steps[n] == RoleStep(h) {
        ReaperStepLowersRank(s, h);
      } else {
        OtherStepLeavesRank(s, steps[n], h);
      }
    }
  }

  lemma CountNonNegative(s: State)
    requires Inv(s)
    ensures 0 <= s.mem.count
  {
  }

  /** Once submissions cease, at most n * n + 42 * n + 36 statements come before a reaper gives the token back. */
  lemma ReapingIsBounded(states: seq<State>, steps: seq<Step>, h: Tid)
    requires QuietStretch(states, steps, h)
    ensures var n := states[0].mem.count; ReaperSteps(steps, h) <= n * n + 42 * n + 36
  {
    hide MemoryOk, SubmitsOk, ThreadsOk, MutexOk, TypedThreads;
    RankPaysForSteps(states, steps, h);
    CountNonNegative(states[0]);
    HolderRank(states[0], h);
    HolderRank(states[|steps|], h);
  }

  lemma HolderRank(s: State, h: Tid)
    requires Inv(s) && s.holder == Some(h)
    ensures h < |s.threads| && 0 <= Rank(s.mem, s.threads[h].role)
    ensures RoleRank(s.mem.count, s.mem.listUpdated, s.threads[h].role) <= 2 * s.mem.count + 36
  {
    hide MembersOk, EventsOk, IoOk, HistoryOk, CoverOk, LinksOk, ThreadsOk, MutexOk, SubmitsOk;
    assert HoldsToken(s.threads[h].role);
    RankNonNegative(s.mem, InnerCall(s.threads, s.mutex), s.threads[h].role);
    CountNonNegative(s);
  }

  /** From one wait of the reaper to a later one, (tran_count, hTransferListUpdated) goes down lexicographically. */
  lemma IterationsDecrease(states: seq<State>, steps: seq<Step>, h: Tid)
    requires QuietStretch(states, steps, h) && 0 < ReaperSteps(steps, h)
    requires h < |states[0].threads| && states[0].threads[h].role.AwaitAny?
    requires h < |states[|steps|].threads| && states[|steps|].threads[h].role.AwaitAny?
    ensures var m, m' := states[0].mem, states[|steps|].mem;
            m'.count < m.count || (m'.count == m.count && m.listUpdated && !m'.listUpdated)
  {
    hide MemoryOk, SubmitsOk, ThreadsOk, MutexOk, TokenOk, TypedThreads, Quota;
    RankPaysForSteps(states, steps, h);
    CountNonNegative(states[0]);
    CountNonNegative(states[|steps|]);
    var m, m' := states[0].mem, states[|steps|].mem;
    if m.count < m'.count {
      QuotaGrows(m.count, m'.count);
    }
  }

  // ---------------------------------------------------------------- waiting for a transfer

  /** The thread waits for the event, and the wait has not succeeded yet. */
  predicate Waits(r: Role, target: Handle) {
    !r.Outside? && !r.ReleaseToken? && r.target == target
  }

  /** The step by which the wait succeeds sees the event signalled. */
  lemma WaitStep(s: State, i: Tid, target: Handle)
    requires Inv(s) && Enabled(s, RoleStep(i)) && Waits(s.threads[i].role, target)
    ensures var r := ApplyRole(s, i).threads[i].role;
            Waits(r, target) || ((r.ReleaseToken? || r.Outside?) && Signalled(s.mem, target))
  {
    hide MemoryOk, SubmitsOk, MutexOk, TokenOk;
    RoleFacts(s, i);
    var r := s.threads[i].role;
    if r.AwaitAny? {
      AwaitAnyTarget(s.mem, InnerCall(s.threads, s.mutex), r);
    }
  }

  /** Once the event is signalled, a thread that blocks for it can move on, and its next step ends the wait. */
  lemma SignalledWaitEnds(s: State, i: Tid)
    requires Inv(s) && i < |s.threads| && s.threads[i].call.NoCall?
    requires s.threads[i].role.AwaitToken? || s.threads[i].role.AwaitAny?
    requires Signalled(s.mem, s.threads[i].role.target)
    ensures WellTyped(s) && Enabled(s, RoleStep(i))
    ensures forall s' :: Follows(s, RoleStep(i), s') ==>
              && i < |s'.threads|
              && (if s.threads[i].role.AwaitToken? then s'.threads[i].role.Outside?
                  else s'.threads[i].role.ReleaseToken?)
  {
    hide MemoryOk, SubmitsOk, MutexOk, TokenOk;
    RoleFacts(s, i);
    var r := s.threads[i].role;
    if r.AwaitAny? {
      AwaitAnyTarget(s.mem, InnerCall(s.threads, s.mutex), r);
    }
  }

  lemma AwaitAnyTarget(m: Memory, c: Call, r: Role)
    requires MemoryOk(m, c, r) && r.AwaitAny?
    ensures 0 < |m.handles| && m.handles[0] == r.target
  {
  }

  lemma CallsKeepRole(s: State, j: Tid, result: IoResult, i: Tid)
    requires Inv(s) && Enabled(s, CallStep(j, result)) && i < |s.threads|
    ensures var s' := ApplyCall(s, j, result); i < |s'.threads| && s'.threads[i].role == s.threads[i].role
  {
    hide ApplyCall;
  }

  lemma RolesKeepRole(s: State, j: Tid, i: Tid)
    requires Inv(s) && Enabled(s, RoleStep(j)) && i < |s.threads| && i != j
    ensures var s' := ApplyRole(s, j); i < |s'.threads| && s'.threads[i].role == s.threads[i].role
  {
    hide ApplyRole;
  }

  /** A thread's role changes only by its own steps. */
  lemma OthersKeepRole(s: State, step: Step, i: Tid)
    requires Inv(s) && Enabled(s, step) && i < |s.threads| && step != RoleStep(i)
    requires !s.threads[i].role.Outside?
    ensures i < |Apply(s, step).threads| && Apply(s, step).threads[i].role == s.threads[i].role
  {
    hide MemoryOk, SubmitsOk, MutexOk, TokenOk;
    match step
    case RoleStep(j) => RolesKeepRole(s, j, i);
    case CallStep(j, result) => CallsKeepRole(s, j, result, i);
    case _ =>
  }

  /** A stretch of a run in which thread i starts to wait for the event, and does not return before its end. */
  ghost predicate WaitingStretch(states: seq<State>, steps: seq<Step>, i: Tid, target: Handle) {
    && |states| == |steps| + 1
    && Inv(states[0]) && steps != [] && steps[0] == StartWait(i, target)
    && (forall k :: 0 <= k < |steps| ==> Follows(states[k], steps[k], states[k + 1]))
    && (forall k :: 0 < k < |steps| ==> i < |states[k].threads| && !states[k].threads[i].role.Outside?)
  }

  /** The event was signalled, and the invariant held, at a moment of the stretch after its first step. */
  ghost predicate WasSignalled(states: seq<State>, target: Handle, n: nat)
    requires n <= |states|
  {
    exists k :: 0 < k < n && Inv(states[k]) && Signalled(states[k].mem, target)
  }

  lemma {:induction false} WaitingSoFar(states: seq<State>, steps: seq<Step>, i: Tid, target: Handle)
    requires WaitingStretch(states, steps, i, target)
    ensures Inv(states[|steps|]) && i < |states[|steps|].threads|
    ensures || Waits(states[|steps|].threads[i].role, target)
            || ((states[|steps|].threads[i].role.ReleaseToken? || states[|steps|].threads[i].role.Outside?)
                && WasSignalled(states, target, |steps|))
  {
    hide ThreadsOk, MutexOk, TokenOk, SubmitsOk, MemoryOk, TypedThreads, Signalled;
    var n := |steps| - 1;
    var s, s' := states[n], states[n + 1];
    assert Follows(s, steps[n], s');
    if n == 0 {
      StepKeepsInv(s, steps[n]);
    } else {
      var states', steps' := states[..n + 1], steps[..n];
      assert WaitingStretch(states', steps', i, target);
      WaitingSoFar(states', steps', i, target);
      StepKeepsInv(s, steps[n]);
      if steps[n] != RoleStep(i) {
        OthersKeepRole(s, steps[n], i);
      } else if Waits(s.threads[i].role, target) {
        WaitStep(s, i, target);
      } else {
        ReleaseLeaves(s, i);
      }
      if WasSignalled(states', target, n) {
        var k :| 0 < k < n && Inv(states'[k]) && Signalled(states'[k].mem, target);
        assert Signalled(states[k].mem, target);
      }
    }
  }

  lemma ReleaseLeaves(s: State, i: Tid)
    requires Inv(s) && Enabled(s, RoleStep(i)) && s.threads[i].role.ReleaseToken?
    ensures i < |ApplyRole(s, i).threads| && ApplyRole(s, i).threads[i].role == Outside
  {
    hide MemoryOk, SubmitsOk, MutexOk, TokenOk;
  }

  /** A wait that has returned saw the event it was called for signalled, at some moment during the wait. */
  lemma WaitSeesItsEvent(states: seq<State>, steps: seq<Step>, i: Tid, target: Handle)
    requires WaitingStretch(states, steps, i, target)
    requires i < |states[|steps|].threads| && states[|steps|].threads[i].role.Outside?
    ensures WasSignalled(states, target, |steps|)
  {
    hide ThreadsOk, MutexOk, TokenOk, SubmitsOk, MemoryOk, TypedThreads;
    WaitingSoFar(states, steps, i, target);
  }

  /**
   A wait for a transfer that has returned saw, at some moment during the wait, the transfer at rest:
   neither submitted nor on the list nor in use by any thread, whatever its callback or other threads submitted
   before or after.
   */
  lemma WaitSeesTransferAtRest(states: seq<State>, steps: seq<Step>, i: Tid, x: Xid)
    requires WaitingStretch(states, steps, i, CompletionEvent(x))
    requires i < |states[|steps|].threads| && states[|steps|].threads[i].role.Outside?
    ensures exists k :: 0 < k < |steps| && AtRest(states[k], x)
  {
    WaitSeesItsEvent(states, steps, i, CompletionEvent(x));
    var k :| 0 < k < |steps| && Inv(states[k]) && Signalled(states[k].mem, CompletionEvent(x));
    CompletionAtRest(states[k], x);
  }
}
