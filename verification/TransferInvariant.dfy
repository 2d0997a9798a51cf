/**
 The invariant of the transfer protocol over all its threads, and the proof that every step of every
 thread and of the kernel keeps it.
 */
module TransferInvariant {
  import opened Options
  import opened TransferProtocol
  import opened TransferMemory

  /** The call executing inside the critical section, if any. */
  function InnerCall(threads: seq<Thread>, mutex: Option<Tid>): Call {
    if mutex.Some? && mutex.value < |threads| then threads[mutex.value].call else NoCall
  }

  /** What the thread with the reaper token is doing. */
  function ReaperRole(threads: seq<Thread>, holder: Option<Tid>): Role {
    if holder.Some? && holder.value < |threads| then threads[holder.value].role else Outside
  }

  ghost predicate Inv(s: State) {
    && TypedThreads(s.threads, |s.mem.info|)
    && ThreadsOk(s.threads)
    && MutexOk(s.threads, s.mutex)
    && TokenOk(s.threads, s.holder, s.reaperLock)
    && SubmitsOk(s.threads, s.mem.flags)
    && MemoryOk(s.mem, InnerCall(s.threads, s.mutex), ReaperRole(s.threads, s.holder))
  }

  /** A thread calls the library only from user code. */
  ghost predicate ThreadsOk(threads: seq<Thread>) {
    forall i :: 0 <= i < |threads| && !threads[i].call.NoCall? ==>
      threads[i].role.Outside? || threads[i].role.InCallback?
  }

  /** The critical section has one thread in it, or none. */
  ghost predicate MutexOk(threads: seq<Thread>, mutex: Option<Tid>) {
    && (mutex.Some? ==> mutex.value < |threads|)
    && (forall i :: 0 <= i < |threads| ==> (InMutex(threads[i]) <==> mutex == Some(i)))
  }

  /** hReaperLock is signalled, or one thread is between acquiring and releasing it. */
  ghost predicate TokenOk(threads: seq<Thread>, holder: Option<Tid>, reaperLock: bool) {
    && (holder.Some? ==> holder.value < |threads|)
    && (reaperLock <==> holder.None?)
    && (forall i :: 0 <= i < |threads| ==> (HoldsToken(threads[i].role) <==> holder == Some(i)))
  }

  /** A transfer being submitted is not in flight, and no two threads submit the same one. */
  ghost predicate SubmitsOk(threads: seq<Thread>, flags: seq<Flags>) {
    && (forall i, x :: 0 <= i < |threads| && 0 <= x < |flags| && Submitting(threads[i].call, x) ==> !flags[x].submitted)
    && (forall i, j, x: Xid |
          0 <= i < |threads| && 0 <= j < |threads|
          && Submitting(threads[i].call, x) && Submitting(threads[j].call, x) ::
          i == j)
  }

  lemma InitInv(s: State)
    requires Init(s)
    ensures Inv(s)
  {
  }

  // ---------------------------------------------------------------- program counters

  lemma MutexUpdate(threads: seq<Thread>, mutex: Option<Tid>, i: Tid, th: Thread, mutex': Option<Tid>)
    requires MutexOk(threads, mutex) && i < |threads|
    requires InMutex(th) <==> mutex' == Some(i)
    requires mutex' != mutex ==> mutex in {None, Some(i)} && mutex' in {None, Some(i)}
    ensures MutexOk(threads[i := th], mutex')
    ensures InnerCall(threads[i := th], mutex') ==
            if mutex' == Some(i) then th.call else if mutex' == mutex then InnerCall(threads, mutex) else NoCall
  {
  }

  lemma TokenUpdate(threads: seq<Thread>, holder: Option<Tid>, lock: bool, i: Tid, th: Thread,
                    holder': Option<Tid>, lock': bool)
    requires TokenOk(threads, holder, lock) && i < |threads|
    requires HoldsToken(th.role) <==> holder' == Some(i)
    requires holder' != holder ==> holder in {None, Some(i)} && holder' in {None, Some(i)}
    requires lock' <==> holder'.None?
    ensures TokenOk(threads[i := th], holder', lock')
    ensures ReaperRole(threads[i := th], holder') ==
            if holder' == Some(i) then th.role else if holder' == holder then ReaperRole(threads, holder) else Outside
  {
  }

  lemma SubmitsUpdate(threads: seq<Thread>, flags: seq<Flags>, i: Tid, th: Thread, flags': seq<Flags>)
    requires SubmitsOk(threads, flags) && i < |threads| && |flags'| == |flags|
    requires forall x: Xid :: Submitting(th.call, x) ==> Submitting(threads[i].call, x)
    requires forall x :: 0 <= x < |flags| && flags'[x].submitted && !flags[x].submitted ==>
                           Submitting(threads[i].call, x) && !Submitting(th.call, x)
    ensures SubmitsOk(threads[i := th], flags')
  {
    var t' := threads[i := th];
    forall j, x: Xid | 0 <= j < |t'| && Submitting(t'[j].call, x)
      ensures Submitting(threads[j].call, x)
    {
    }
  }

  /** Thread i has moved to `th`; what is left to show concerns the memory. */
  lemma Conclude(s: State, s': State, i: Tid, th: Thread)
    requires Inv(s) && i < |s.threads| && s'.threads == s.threads[i := th]
    requires |s'.mem.info| == |s.mem.info| && TypedThread(th, |s.mem.info|)
    requires th.call.NoCall? || th.role.Outside? || th.role.InCallback?
    requires InMutex(th) <==> s'.mutex == Some(i)
    requires s'.mutex != s.mutex ==> s.mutex in {None, Some(i)} && s'.mutex in {None, Some(i)}
    requires HoldsToken(th.role) <==> s'.holder == Some(i)
    requires s'.holder != s.holder ==> s.holder in {None, Some(i)} && s'.holder in {None, Some(i)}
    requires s'.reaperLock <==> s'.holder.None?
    requires SubmitsOk(s'.threads, s'.mem.flags)
    requires MemoryOk(s'.mem, CallAfter(s, s', i, th), RoleAfter(s, s', i, th))
    ensures Inv(s')
  {
    hide MemoryOk, SubmitsOk;
    MutexUpdate(s.threads, s.mutex, i, th, s'.mutex);
    TokenUpdate(s.threads, s.holder, s.reaperLock, i, th, s'.holder, s'.reaperLock);
    hide MutexOk, TokenOk;
  }

  function CallAfter(s: State, s': State, i: Tid, th: Thread): Call {
    if s'.mutex == Some(i) then th.call else if s'.mutex == s.mutex then InnerCall(s.threads, s.mutex) else NoCall
  }

  function RoleAfter(s: State, s': State, i: Tid, th: Thread): Role {
    if s'.holder == Some(i) then th.role
    else if s'.holder == s.holder then ReaperRole(s.threads, s.holder) else Outside
  }

  /** What is known of a thread that is about to execute a statement of its role. */
  lemma RoleFacts(s: State, i: Tid)
    requires Inv(s) && i < |s.threads| && s.threads[i].call.NoCall?
    ensures TypedThread(s.threads[i], |s.mem.info|) && Typed(s.mem)
    ensures HoldsToken(s.threads[i].role) ==>
              s.holder == Some(i) && ReaperRole(s.threads, s.holder) == s.threads[i].role
    ensures !HoldsToken(s.threads[i].role) ==> s.holder != Some(i)
    ensures InMutex(s.threads[i]) ==> s.mutex == Some(i)
    ensures !InMutex(s.threads[i]) ==> s.mutex != Some(i)
    ensures s.mutex.None? || InMutex(s.threads[i]) ==> InnerCall(s.threads, s.mutex) == NoCall
    ensures HoldsToken(s.threads[i].role) ==> MemoryOk(s.mem, InnerCall(s.threads, s.mutex), s.threads[i].role)
  {
    hide LinksOk, CoverOk, MembersOk, HistoryOk, IoOk, EventsOk, ReaperOk, SubmitsOk;
  }

  // ---------------------------------------------------------------- waiting and reaping

  /** A thread moves on, possibly entering or leaving the mutex, and touches nothing else. */
  lemma RoleMoveKeeps(s: State, i: Tid, r: Role, mutex': Option<Tid>)
    requires Inv(s) && i < |s.threads| && s.threads[i].call.NoCall?
    requires HoldsToken(s.threads[i].role) == HoldsToken(r)
    requires InMutex(Thread(r, NoCall)) <==> mutex' == Some(i)
    requires mutex' != s.mutex ==> s.mutex in {None, Some(i)} && mutex' in {None, Some(i)}
    requires TypedThread(Thread(r, NoCall), |s.mem.info|)
    requires forall x: Xid :: Settling(s.threads[i].role, x) == Settling(r, x)
    requires forall x: Xid :: CallbackDue(s.threads[i].role, x) == CallbackDue(r, x)
    requires HoldsToken(r) ==> ReaperAt(s.mem, r)
    ensures Inv(SetRole(s, i, r).(mutex := mutex'))
  {
    var th, s' := Thread(r, NoCall), SetRole(s, i, r).(mutex := mutex');
    var c := InnerCall(s.threads, s.mutex);
    RoleFacts(s, i);
    SubmitsUpdate(s.threads, s.mem.flags, i, th, s.mem.flags);
    if HoldsToken(r) {
      RoleMoveOk(s.mem, c, s.threads[i].role, r);
    }
    hide MemoryOk, SubmitsOk, ReaperAt;
    Conclude(s, s', i, th);
  }

  /** A reaping thread executes a statement that changes memory but neither mutex nor token. */
  lemma ReaperStepKeeps(s: State, i: Tid, r: Role, m': Memory)
    requires Inv(s) && i < |s.threads| && s.threads[i].call.NoCall?
    requires HoldsToken(s.threads[i].role) && HoldsToken(r)
    requires InMutex(Thread(r, NoCall)) == InMutex(s.threads[i])
    requires |m'.info| == |s.mem.info| && TypedThread(Thread(r, NoCall), |s.mem.info|)
    requires |m'.flags| == |s.mem.flags|
    requires forall x :: 0 <= x < |m'.flags| && m'.flags[x].submitted ==> s.mem.flags[x].submitted
    requires MemoryOk(m', InnerCall(s.threads, s.mutex), r)
    ensures Inv(SetRole(s, i, r).(mem := m'))
  {
    var th, s' := Thread(r, NoCall), SetRole(s, i, r).(mem := m');
    RoleFacts(s, i);
    SubmitsUpdate(s.threads, s.mem.flags, i, th, m'.flags);
    hide MemoryOk, SubmitsOk;
    Conclude(s, s', i, th);
  }

  lemma TakeTokenKeeps(s: State, i: Tid, t: Handle)
    requires Inv(s) && i < |s.threads| && s.threads[i] == Thread(AwaitToken(t), NoCall) && s.reaperLock
    ensures Inv(SetRole(s, i, SnapEnter(t)).(reaperLock := false, holder := Some(i)))
  {
    var th, s' := Thread(SnapEnter(t), NoCall), SetRole(s, i, SnapEnter(t)).(reaperLock := false, holder := Some(i));
    RoleFacts(s, i);
    RoleMoveOk(s.mem, InnerCall(s.threads, s.mutex), Outside, SnapEnter(t));
    SubmitsUpdate(s.threads, s.mem.flags, i, th, s.mem.flags);
    hide MemoryOk, SubmitsOk;
    Conclude(s, s', i, th);
  }

  lemma ReleaseTokenKeeps(s: State, i: Tid)
    requires Inv(s) && i < |s.threads| && s.threads[i] == Thread(ReleaseToken, NoCall)
    ensures Inv(SetRole(s, i, Outside).(reaperLock := true, holder := None))
  {
    var th, s' := Thread(Outside, NoCall), SetRole(s, i, Outside).(reaperLock := true, holder := None);
    RoleFacts(s, i);
    RoleMoveOk(s.mem, InnerCall(s.threads, s.mutex), ReleaseToken, Outside);
    SubmitsUpdate(s.threads, s.mem.flags, i, th, s.mem.flags);
    hide MemoryOk, SubmitsOk;
    Conclude(s, s', i, th);
  }

  lemma FillKeeps(s: State, i: Tid, t: Handle)
    requires Inv(s) && i < |s.threads| && s.threads[i] == Thread(Snapshot(t), NoCall)
    ensures Inv(SetRole(s, i, SnapReset(t)).(mem := FillHandles(s.mem, t)))
  {
    RoleFacts(s, i);
    FillHandlesOk(s.mem, t);
    hide MemoryOk, SubmitsOk;
    ReaperStepKeeps(s, i, SnapReset(t), FillHandles(s.mem, t));
  }

  lemma SnapResetKeeps(s: State, i: Tid, t: Handle)
    requires Inv(s) && i < |s.threads| && s.threads[i] == Thread(SnapReset(t), NoCall)
    ensures Inv(SetRole(s, i, SnapLeave(t)).(mem := s.mem.(listUpdated := false)))
  {
    RoleFacts(s, i);
    SnapResetOk(s.mem, t);
    hide MemoryOk, SubmitsOk;
    ReaperStepKeeps(s, i, SnapLeave(t), s.mem.(listUpdated := false));
  }

  lemma SnapLeaveKeeps(s: State, i: Tid, t: Handle)
    requires Inv(s) && i < |s.threads| && s.threads[i] == Thread(SnapLeave(t), NoCall)
    ensures Inv(SetRole(s, i, AwaitAny(t)).(mutex := None))
  {
    RoleFacts(s, i);
    assert ReaperAt(s.mem, AwaitAny(t));
    hide MemoryOk, SubmitsOk, ReaperAt;
    RoleMoveKeeps(s, i, AwaitAny(t), None);
  }

  lemma WokenTyped(m: Memory, t: Handle)
    requires Typed(m) && TypedThread(Thread(AwaitAny(t), NoCall), |m.info|)
    ensures TypedThread(Thread(WokenRole(m, t), NoCall), |m.info|)
  {
  }

  lemma AwaitAnyKeeps(s: State, i: Tid, t: Handle)
    requires Inv(s) && i < |s.threads| && s.threads[i] == Thread(AwaitAny(t), NoCall)
    requires FirstSignalled(s.mem, s.mem.handles) < |s.mem.handles|
    ensures Inv(SetRole(s, i, WokenRole(s.mem, t)))
  {
    hide MemoryOk, SubmitsOk, ReaperAt, ThreadsOk, MutexOk, TokenOk, TypedThreads;
    RoleFacts(s, i);
    WokenOk(s.mem, t, InnerCall(s.threads, s.mutex));
    WokenTyped(s.mem, t);
    RoleMoveKeeps(s, i, WokenRole(s.mem, t), s.mutex);
  }

  /** The statements of usbyi_win32_reap_until and usbyi_win32_reap_until_locked, without the search. */
  lemma WaitStepKeeps(s: State, i: Tid)
    requires Inv(s) && Enabled(s, RoleStep(i))
    requires !s.threads[i].role.FindFirst? && !s.threads[i].role.FindTest? && !s.threads[i].role.FindNext?
    requires RoleTransfer(s.threads[i].role).None? && !s.threads[i].role.PostLeave?
    ensures Inv(ApplyRole(s, i))
  {
    match s.threads[i].role
    case AwaitToken(t) =>
      if Signalled(s.mem, t) {
        LeaveQueueKeeps(s, i, t);
      } else {
        TakeTokenKeeps(s, i, t);
      }
    case SnapEnter(t) => SnapEnterKeeps(s, i, t);
    case Snapshot(t) => FillKeeps(s, i, t);
    case SnapReset(t) => SnapResetKeeps(s, i, t);
    case SnapLeave(t) => SnapLeaveKeeps(s, i, t);
    case AwaitAny(t) => AwaitAnyKeeps(s, i, t);
    case ReleaseToken => ReleaseTokenKeeps(s, i);
  }

  lemma LeaveQueueKeeps(s: State, i: Tid, t: Handle)
    requires Inv(s) && i < |s.threads| && s.threads[i] == Thread(AwaitToken(t), NoCall)
    ensures Inv(SetRole(s, i, Outside))
  {
    RoleFacts(s, i);
    hide MemoryOk, SubmitsOk;
    RoleMoveKeeps(s, i, Outside, s.mutex);
  }

  lemma SnapEnterKeeps(s: State, i: Tid, t: Handle)
    requires Inv(s) && i < |s.threads| && s.threads[i] == Thread(SnapEnter(t), NoCall) && s.mutex.None?
    ensures Inv(SetRole(s, i, Snapshot(t)).(mutex := Some(i)))
  {
    RoleFacts(s, i);
    assert ReaperAt(s.mem, Snapshot(t));
    hide MemoryOk, SubmitsOk, ReaperAt;
    RoleMoveKeeps(s, i, Snapshot(t), Some(i));
  }

  lemma FindFirstKeeps(s: State, i: Tid, t: Handle, h: Handle)
    requires Inv(s) && i < |s.threads| && s.threads[i] == Thread(FindFirst(t, h), NoCall)
    ensures Inv(SetRole(s, i, FindTest(t, h, 0, s.mem.first)))
  {
    RoleFacts(s, i);
    FindFirstOk(s.mem, t, h, InnerCall(s.threads, s.mutex));
    hide MemoryOk, SubmitsOk, ReaperAt;
    RoleMoveKeeps(s, i, FindTest(t, h, 0, s.mem.first), s.mutex);
  }

  lemma FindTestKeeps(s: State, i: Tid, t: Handle, h: Handle, n: nat, cur: Option<Xid>)
    requires Inv(s) && i < |s.threads| && s.threads[i] == Thread(FindTest(t, h, n, cur), NoCall)
    ensures Inv(SetRole(s, i, TestedRole(s.mem, t, h, n, cur)))
  {
    RoleFacts(s, i);
    TestedOk(s.mem, t, h, n, cur, InnerCall(s.threads, s.mutex));
    hide MemoryOk, SubmitsOk, ReaperAt;
    var r := TestedRole(s.mem, t, h, n, cur);
    assert TypedThread(Thread(r, NoCall), |s.mem.info|) && (r.FetchResult? || r.FindNext?);
    hide TestedRole;
    RoleMoveKeeps(s, i, r, s.mutex);
  }

  lemma FindNextKeeps(s: State, i: Tid, t: Handle, h: Handle, n: nat, at: Xid)
    requires Inv(s) && i < |s.threads| && s.threads[i] == Thread(FindNext(t, h, n, at), NoCall)
    ensures at < |s.mem.link| && Inv(SetRole(s, i, FindTest(t, h, n + 1, s.mem.link[at].next)))
  {
    RoleFacts(s, i);
    FindNextOk(s.mem, t, h, n, at, InnerCall(s.threads, s.mutex));
    assert TypedLink(s.mem.link[at], |s.mem.info|);
    hide MemoryOk, SubmitsOk, ReaperAt;
    RoleMoveKeeps(s, i, FindTest(t, h, n + 1, s.mem.link[at].next), s.mutex);
  }

  /** The search outside the mutex. */
  lemma FindStepKeeps(s: State, i: Tid)
    requires Inv(s) && Enabled(s, RoleStep(i))
    requires s.threads[i].role.FindFirst? || s.threads[i].role.FindTest? || s.threads[i].role.FindNext?
    ensures Inv(ApplyRole(s, i))
  {
    hide MemoryOk, ThreadsOk, MutexOk, TokenOk, SubmitsOk;
    match s.threads[i].role
    case FindFirst(t, h) => FindFirstKeeps(s, i, t, h);
    case FindTest(t, h, n, cur) => FindTestKeeps(s, i, t, h, n, cur);
    case FindNext(t, h, n, at) => FindNextKeeps(s, i, t, h, n, at);
  }

  lemma FetchKeeps(s: State, i: Tid, t: Handle, x: Xid)
    requires Inv(s) && i < |s.threads| && s.threads[i] == Thread(FetchResult(t, x), NoCall)
    ensures x < |s.mem.info| && Inv(SetRole(s, i, UnlinkEnter(t, x)).(mem := StoreReport(s.mem, x)))
  {
    RoleFacts(s, i);
    StoreReportOk(s.mem, t, x, InnerCall(s.threads, s.mutex));
    hide MemoryOk, SubmitsOk;
    ReaperStepKeeps(s, i, UnlinkEnter(t, x), StoreReport(s.mem, x));
  }

  lemma UnlinkKeeps(s: State, i: Tid, t: Handle, x: Xid)
    requires Inv(s) && i < |s.threads| && s.threads[i] == Thread(Unlink(t, x), NoCall)
    ensures x < |s.mem.info| && Inv(SetRole(s, i, UnlinkLeave(t, x)).(mem := UnlinkTransfer(s.mem, x)))
  {
    RoleFacts(s, i);
    UnlinkOk(s.mem, t, x);
    hide MemoryOk, SubmitsOk, UnlinkPointers;
    var m' := UnlinkTransfer(s.mem, x);
    assert m'.info == s.mem.info && |m'.flags| == |s.mem.flags|;
    assert forall y :: 0 <= y < |m'.flags| && m'.flags[y].submitted ==> s.mem.flags[y].submitted;
    hide UnlinkTransfer;
    ReaperStepKeeps(s, i, UnlinkLeave(t, x), m');
  }

  lemma CallbackKeeps(s: State, i: Tid, t: Handle, x: Xid)
    requires Inv(s) && i < |s.threads| && s.threads[i] == Thread(CallCallback(t, x), NoCall)
    ensures x < |s.mem.info|
    ensures s.mem.info[x].hasCallback ==> Inv(SetRole(s, i, InCallback(t, x)).(mem := CountCallback(s.mem, x)))
    ensures !s.mem.info[x].hasCallback ==> Inv(SetRole(s, i, PostEnter(t, x)))
  {
    RoleFacts(s, i);
    var c := InnerCall(s.threads, s.mutex);
    if s.mem.info[x].hasCallback {
      CountCallbackOk(s.mem, t, x, c);
      hide MemoryOk, SubmitsOk;
      ReaperStepKeeps(s, i, InCallback(t, x), CountCallback(s.mem, x));
    } else {
      SkipCallbackOk(s.mem, t, x, c);
      hide MemoryOk, SubmitsOk;
      ReaperStepKeeps(s, i, PostEnter(t, x), s.mem);
    }
  }

  lemma PostKeeps(s: State, i: Tid, t: Handle, x: Xid)
    requires Inv(s) && i < |s.threads| && s.threads[i] == Thread(Post(t, x), NoCall)
    ensures x < |s.mem.info| && Inv(SetRole(s, i, PostLeave(t)).(mem := PostCompletion(s.mem, x)))
  {
    RoleFacts(s, i);
    PostCompletionOk(s.mem, t, x);
    hide MemoryOk, SubmitsOk;
    ReaperStepKeeps(s, i, PostLeave(t), PostCompletion(s.mem, x));
  }

  /** The remaining statements of usbyb_reap_transfer only enter or leave the mutex or the callback. */
  lemma ReapMoveKeeps(s: State, i: Tid, r: Role, mutex': Option<Tid>)
    requires Inv(s) && i < |s.threads| && s.threads[i].call.NoCall?
    requires match s.threads[i].role
             case UnlinkEnter(t, x) => s.mutex.None? && r == Unlink(t, x) && mutex' == Some(i)
             case UnlinkLeave(t, x) => r == CallCallback(t, x) && mutex' == None
             case InCallback(t, x) => r == PostEnter(t, x) && mutex' == s.mutex
             case PostEnter(t, x) => s.mutex.None? && r == Post(t, x) && mutex' == Some(i)
             case PostLeave(t) => r == SnapEnter(t) && mutex' == None
             case _ => false
    ensures Inv(SetRole(s, i, r).(mutex := mutex'))
  {
    RoleFacts(s, i);
    assert ReaperAt(s.mem, r);
    hide MemoryOk, SubmitsOk, ReaperAt;
    RoleMoveKeeps(s, i, r, mutex');
  }

  /** The statements of usbyb_reap_transfer. */
  lemma ReapStepKeeps(s: State, i: Tid)
    requires Inv(s) && Enabled(s, RoleStep(i))
    requires RoleTransfer(s.threads[i].role).Some? || s.threads[i].role.PostLeave?
    ensures Inv(ApplyRole(s, i))
  {
    match s.threads[i].role
    case FetchResult(t, x) => FetchKeeps(s, i, t, x);
    case UnlinkEnter(t, x) => ReapMoveKeeps(s, i, Unlink(t, x), Some(i));
    case Unlink(t, x) => UnlinkKeeps(s, i, t, x);
    case UnlinkLeave(t, x) => ReapMoveKeeps(s, i, CallCallback(t, x), None);
    case CallCallback(t, x) => CallbackKeeps(s, i, t, x);
    case InCallback(t, x) => ReapMoveKeeps(s, i, PostEnter(t, x), s.mutex);
    case PostEnter(t, x) => ReapMoveKeeps(s, i, Post(t, x), Some(i));
    case Post(t, x) => PostKeeps(s, i, t, x);
    case PostLeave(t) => ReapMoveKeeps(s, i, SnapEnter(t), None);
  }

  // ---------------------------------------------------------------- submitting and cancelling

  lemma CallFacts(s: State, i: Tid)
    requires Inv(s) && i < |s.threads| && !s.threads[i].call.NoCall?
    ensures s.threads[i].role.Outside? || s.threads[i].role.InCallback?
    ensures Typed(s.mem) && TypedThread(s.threads[i], |s.mem.info|)
    ensures HoldsToken(s.threads[i].role) <==> s.holder == Some(i)
    ensures InMutex(s.threads[i]) ==> s.mutex == Some(i) && InnerCall(s.threads, s.mutex) == s.threads[i].call
    ensures s.mutex == Some(i) ==> !ReaperRole(s.threads, s.holder).SnapReset?
    ensures !InMutex(s.threads[i]) ==> s.mutex != Some(i)
    ensures MemoryOk(s.mem, InnerCall(s.threads, s.mutex), ReaperRole(s.threads, s.holder))
    ensures s.threads[i].call.SubmitFlag? ==> s.threads[i].call.x in s.mem.list
    ensures forall x :: 0 <= x < |s.mem.flags| && Submitting(s.threads[i].call, x) ==> !s.mem.flags[x].submitted
  {
    hide LinksOk, CoverOk, HistoryOk, IoOk, EventsOk, ReaperOk;
  }

  /** A thread inside the critical section executes the next statement of its call. */
  lemma CallStepKeeps(s: State, i: Tid, c: Call, m': Memory, mutex': Option<Tid>)
    requires Inv(s) && i < |s.threads| && InMutex(s.threads[i]) && !s.threads[i].call.NoCall?
    requires mutex' == if c.NoCall? then None else Some(i)
    requires InMutex(Thread(Outside, c)) <==> !c.NoCall?
    requires forall x: Xid :: Submitting(c, x) ==> Submitting(s.threads[i].call, x)
    requires |m'.info| == |s.mem.info| && |m'.flags| == |s.mem.flags|
    requires CallTransfer(c).Some? ==> CallTransfer(c).value < |s.mem.info|
    requires forall x :: 0 <= x < |m'.flags| && m'.flags[x].submitted && !s.mem.flags[x].submitted ==>
                           Submitting(s.threads[i].call, x) && !Submitting(c, x)
    requires MemoryOk(m', c, ReaperRole(s.threads, s.holder))
    ensures Inv(SetCall(s, i, c).(mem := m', mutex := mutex'))
  {
    var th, s' := s.threads[i].(call := c), SetCall(s, i, c).(mem := m', mutex := mutex');
    CallFacts(s, i);
    SubmitsUpdate(s.threads, s.mem.flags, i, th, m'.flags);
    hide MemoryOk, SubmitsOk;
    Conclude(s, s', i, th);
  }

  /** A thread enters the critical section. */
  lemma EnterKeeps(s: State, i: Tid)
    requires Inv(s) && i < |s.threads| && s.mutex.None?
    requires s.threads[i].call.SubmitEnter? || s.threads[i].call.CancelEnter?
    ensures var x := s.threads[i].call.x;
            Inv(SetCall(s, i, if s.threads[i].call.SubmitEnter? then SubmitIo(x) else CancelIo(x)).(mutex := Some(i)))
  {
    var x := s.threads[i].call.x;
    var c := if s.threads[i].call.SubmitEnter? then SubmitIo(x) else CancelIo(x);
    var th, s' := s.threads[i].(call := c), SetCall(s, i, c).(mutex := Some(i));
    CallFacts(s, i);
    OuterMoveOk(s.mem, NoCall, c, ReaperRole(s.threads, s.holder));
    SubmitsUpdate(s.threads, s.mem.flags, i, th, s.mem.flags);
    hide MemoryOk, SubmitsOk;
    Conclude(s, s', i, th);
  }

  /** A submission: the request to the kernel. */
  lemma SubmitIoKeeps(s: State, i: Tid, result: IoResult)
    requires Inv(s) && Enabled(s, CallStep(i, result)) && s.threads[i].call.SubmitIo?
    ensures Inv(ApplyCall(s, i, result))
  {
    hide MemoryOk, ThreadsOk, MutexOk, TokenOk, SubmitsOk;
    CallFacts(s, i);
    var m, r, x := s.mem, ReaperRole(s.threads, s.holder), s.threads[i].call.x;
    if result.Refused? {
      OuterMoveOk(m, SubmitIo(x), CallLeave, r);
      CallStepKeeps(s, i, CallLeave, m, Some(i));
    } else {
      IssueIoOk(m, x, result, r);
      CallStepKeeps(s, i, SubmitReset(x), IssueIo(m, x, result), Some(i));
    }
  }

  lemma SubmitResetKeeps(s: State, i: Tid, result: IoResult)
    requires Inv(s) && Enabled(s, CallStep(i, result)) && s.threads[i].call.SubmitReset?
    ensures Inv(ApplyCall(s, i, result))
  {
    hide MemoryOk, ThreadsOk, MutexOk, TokenOk, SubmitsOk;
    CallFacts(s, i);
    var m, r, x := s.mem, ReaperRole(s.threads, s.holder), s.threads[i].call.x;
    ResetCompletionOk(m, x, r);
    CallStepKeeps(s, i, SubmitInit(x), ResetCompletion(m, x), Some(i));
  }

  lemma LinkInitKeeps(s: State, i: Tid, x: Xid)
    requires Inv(s) && i < |s.threads| && s.threads[i].call == SubmitInit(x)
    ensures x < |s.mem.info|
    ensures Inv(SetCall(s, i, SubmitLinkNext(x)).(
                  mem := s.mem.(link := s.mem.link[x := Link(None, s.mem.last)]), mutex := Some(i)))
  {
    hide MemoryOk, ThreadsOk, MutexOk, TokenOk, SubmitsOk;
    CallFacts(s, i);
    SubmitInitOk(s.mem, x, ReaperRole(s.threads, s.holder));
    CallStepKeeps(s, i, SubmitLinkNext(x), s.mem.(link := s.mem.link[x := Link(None, s.mem.last)]), Some(i));
  }

  lemma LinkNextKeeps(s: State, i: Tid, x: Xid)
    requires Inv(s) && i < |s.threads| && s.threads[i].call == SubmitLinkNext(x)
    ensures x < |s.mem.info| && Inv(SetCall(s, i, SubmitLinkLast(x)).(mem := LinkNext(s.mem, x), mutex := Some(i)))
  {
    hide MemoryOk, ThreadsOk, MutexOk, TokenOk, SubmitsOk;
    CallFacts(s, i);
    LinkNextOk(s.mem, x, ReaperRole(s.threads, s.holder));
    CallStepKeeps(s, i, SubmitLinkLast(x), LinkNext(s.mem, x), Some(i));
  }

  lemma LinkLastKeeps(s: State, i: Tid, x: Xid)
    requires Inv(s) && i < |s.threads| && s.threads[i].call == SubmitLinkLast(x)
    ensures x < |s.mem.info|
    ensures Inv(SetCall(s, i, SubmitLinkFirst(x)).(mem := s.mem.(last := Some(x)), mutex := Some(i)))
  {
    hide MemoryOk, ThreadsOk, MutexOk, TokenOk, SubmitsOk;
    CallFacts(s, i);
    LinkLastOk(s.mem, x, ReaperRole(s.threads, s.holder));
    CallStepKeeps(s, i, SubmitLinkFirst(x), s.mem.(last := Some(x)), Some(i));
  }

  lemma LinkFirstKeeps(s: State, i: Tid, x: Xid)
    requires Inv(s) && i < |s.threads| && s.threads[i].call == SubmitLinkFirst(x)
    ensures x < |s.mem.info| && Inv(SetCall(s, i, SubmitCount(x)).(mem := LinkFirst(s.mem, x), mutex := Some(i)))
  {
    hide MemoryOk, ThreadsOk, MutexOk, TokenOk, SubmitsOk;
    CallFacts(s, i);
    LinkFirstOk(s.mem, x, ReaperRole(s.threads, s.holder));
    CallStepKeeps(s, i, SubmitCount(x), LinkFirst(s.mem, x), Some(i));
  }

  lemma CountKeeps(s: State, i: Tid, x: Xid)
    requires Inv(s) && i < |s.threads| && s.threads[i].call == SubmitCount(x)
    ensures x < |s.mem.info| && Inv(SetCall(s, i, SubmitFlag(x)).(mem := CountTransfer(s.mem, x), mutex := Some(i)))
  {
    hide MemoryOk, ThreadsOk, MutexOk, TokenOk, SubmitsOk;
    CallFacts(s, i);
    CountTransferOk(s.mem, x, ReaperRole(s.threads, s.holder));
    CallStepKeeps(s, i, SubmitFlag(x), CountTransfer(s.mem, x), Some(i));
  }

  lemma FlagKeeps(s: State, i: Tid, x: Xid)
    requires Inv(s) && i < |s.threads| && s.threads[i].call == SubmitFlag(x)
    ensures x < |s.mem.info| && Inv(SetCall(s, i, SubmitSignal).(mem := SetSubmitted(s.mem, x), mutex := Some(i)))
  {
    hide MemoryOk, ThreadsOk, MutexOk, TokenOk, SubmitsOk;
    CallFacts(s, i);
    SetSubmittedOk(s.mem, x, ReaperRole(s.threads, s.holder));
    CallStepKeeps(s, i, SubmitSignal, SetSubmitted(s.mem, x), Some(i));
  }

  lemma SignalKeeps(s: State, i: Tid)
    requires Inv(s) && i < |s.threads| && s.threads[i].call == SubmitSignal
    ensures Inv(SetCall(s, i, CallLeave).(mem := s.mem.(listUpdated := true), mutex := Some(i)))
  {
    hide MemoryOk, ThreadsOk, MutexOk, TokenOk, SubmitsOk;
    CallFacts(s, i);
    SubmitSignalOk(s.mem, ReaperRole(s.threads, s.holder));
    CallStepKeeps(s, i, CallLeave, s.mem.(listUpdated := true), Some(i));
  }

  lemma AbortKeeps(s: State, i: Tid, x: Xid)
    requires Inv(s) && i < |s.threads| && s.threads[i].call == CancelIo(x)
    ensures x < |s.mem.info| && Inv(SetCall(s, i, CallLeave).(mem := RequestAbort(s.mem, x), mutex := Some(i)))
  {
    hide MemoryOk, ThreadsOk, MutexOk, TokenOk, SubmitsOk;
    CallFacts(s, i);
    RequestAbortOk(s.mem, x, ReaperRole(s.threads, s.holder));
    CallStepKeeps(s, i, CallLeave, RequestAbort(s.mem, x), Some(i));
  }

  lemma LeaveKeeps(s: State, i: Tid)
    requires Inv(s) && i < |s.threads| && s.threads[i].call == CallLeave
    ensures Inv(SetCall(s, i, NoCall).(mem := s.mem, mutex := None))
  {
    hide MemoryOk, ThreadsOk, MutexOk, TokenOk, SubmitsOk;
    CallFacts(s, i);
    OuterMoveOk(s.mem, CallLeave, NoCall, ReaperRole(s.threads, s.holder));
    CallStepKeeps(s, i, NoCall, s.mem, None);
  }

  /** The statements that write pointers and the counter. */
  lemma LinkKeeps(s: State, i: Tid, result: IoResult)
    requires Inv(s) && Enabled(s, CallStep(i, result))
    requires s.threads[i].call.SubmitInit? || Linking(s.threads[i].call)
    ensures Inv(ApplyCall(s, i, result))
  {
    hide MemoryOk, ThreadsOk, MutexOk, TokenOk, SubmitsOk;
    CallFacts(s, i);
    hide Typed, TypedThreads, LinkNext, LinkFirst, CountTransfer;
    match s.threads[i].call
    case SubmitInit(x) => LinkInitKeeps(s, i, x);
    case SubmitLinkNext(x) => LinkNextKeeps(s, i, x);
    case SubmitLinkLast(x) => LinkLastKeeps(s, i, x);
    case SubmitLinkFirst(x) => LinkFirstKeeps(s, i, x);
    case SubmitCount(x) => CountKeeps(s, i, x);
  }

  /** The statements of usbyb_submit_transfer and usbyb_cancel_transfer. */
  lemma CallKeeps(s: State, i: Tid, result: IoResult)
    requires Inv(s) && Enabled(s, CallStep(i, result))
    ensures Inv(ApplyCall(s, i, result))
  {
    hide MemoryOk, ThreadsOk, MutexOk, TokenOk, SubmitsOk;
    CallFacts(s, i);
    match s.threads[i].call
    case SubmitEnter(x) => EnterKeeps(s, i);
    case CancelEnter(x) => EnterKeeps(s, i);
    case SubmitIo(x) => SubmitIoKeeps(s, i, result);
    case SubmitReset(x) => SubmitResetKeeps(s, i, result);
    case SubmitFlag(x) => FlagKeeps(s, i, x);
    case SubmitSignal => SignalKeeps(s, i);
    case CancelIo(x) => AbortKeeps(s, i, x);
    case CallLeave => LeaveKeeps(s, i);
    case _ => LinkKeeps(s, i, result);
  }

  // ---------------------------------------------------------------- user code and the kernel

  lemma StartWaitKeeps(s: State, i: Tid, target: Handle)
    requires Inv(s) && Enabled(s, StartWait(i, target))
    ensures Inv(SetRole(s, i, AwaitToken(target)))
  {
    RoleMoveKeeps(s, i, AwaitToken(target), s.mutex);
  }

  lemma StartCallKeeps(s: State, i: Tid, c: Call)
    requires Inv(s)
    requires (c.SubmitEnter? && Enabled(s, StartSubmit(i, c.x))) || (c.CancelEnter? && Enabled(s, StartCancel(i, c.x)))
    ensures Inv(SetCall(s, i, c))
  {
    var th, s' := s.threads[i].(call := c), SetCall(s, i, c);
    RoleFacts(s, i);
    StartSubmitsOk(s.threads, s.mem.flags, i, th);
    hide MemoryOk, SubmitsOk;
    Conclude(s, s', i, th);
  }

  lemma StartSubmitsOk(threads: seq<Thread>, flags: seq<Flags>, i: Tid, th: Thread)
    requires SubmitsOk(threads, flags) && i < |threads|
    requires forall x: Xid, j :: Submitting(th.call, x) && 0 <= j < |threads| ==> !Submitting(threads[j].call, x)
    requires forall x :: 0 <= x < |flags| && Submitting(th.call, x) ==> !flags[x].submitted
    ensures SubmitsOk(threads[i := th], flags)
  {
  }

  lemma LoopEventKeeps(s: State, stopped: bool)
    requires Inv(s)
    ensures Inv(s.(mem := s.mem.(loopStopped := stopped)))
  {
  }

  /** Every step of every thread and of the kernel keeps the invariant. */
  lemma StepKeepsInv(s: State, step: Step)
    requires Inv(s) && Enabled(s, step)
    ensures Inv(Apply(s, step))
  {
    match step
    case Complete(x, outcome) => CompleteKeeps(s, x, outcome);
    case StartWait(i, target) => StartWaitKeeps(s, i, target);
    case StartSubmit(i, x) => StartCallKeeps(s, i, SubmitEnter(x));
    case StartCancel(i, x) => StartCallKeeps(s, i, CancelEnter(x));
    case StopLoop => LoopEventKeeps(s, true);
    case ResetLoop => LoopEventKeeps(s, false);
    case RoleStep(i) =>
      var r := s.threads[i].role;
      if r.FindFirst? || r.FindTest? || r.FindNext? {
        FindStepKeeps(s, i);
      } else if RoleTransfer(r).Some? || r.PostLeave? {
        ReapStepKeeps(s, i);
      } else {
        WaitStepKeeps(s, i);
      }
    case CallStep(i, result) => CallKeeps(s, i, result);
  }

  lemma CompleteKeeps(s: State, x: Xid, outcome: Outcome)
    requires Inv(s) && Enabled(s, Complete(x, outcome))
    ensures Inv(s.(mem := CompleteIo(s.mem, x, outcome)))
  {
    CompleteIoOk(s.mem, x, outcome, InnerCall(s.threads, s.mutex), ReaperRole(s.threads, s.holder));
    hide MemoryOk;
  }
}
