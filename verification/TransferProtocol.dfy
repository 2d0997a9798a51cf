/**
 The Win32 asynchronous transfer protocol as a step system (src/os/libusb0_win32.c:386-652).

 Any number of threads submit, cancel, wait for transfers or run the event loop. A thread's
 program counter has two parts: its `role` in waiting and reaping, and the library `call`
 it is executing, either on its own or from inside a completion callback. Every access to
 memory or to an event that another thread can observe is a step of its own, so that the
 reaper's search outside the mutex interleaves with each single pointer write of a submission.
 Events are booleans, memory is sequentially consistent, and the kernel is an extra party that
 completes pending operations at any moment.
 */
module TransferProtocol {
  import opened Options
  import opened Sequences

  type Tid = nat // a thread
  type Xid = nat // a transfer

  /** How the kernel ended an operation. */
  datatype Outcome = Success(transferred: nat) | Aborted | Failed

  /** The overlapped operation of a transfer. Its event is unsignalled exactly while it is pending. */
  datatype Io = NeverIssued | Pending | Done(outcome: Outcome)

  /** What DeviceIoControl answers to a submission. */
  datatype IoResult = Refused | Queued | Immediate(outcome: Outcome)

  datatype TransferType = Control | Isochronous | Bulk | Interrupt
  datatype Status = Completed | Cancelled | Error
  datatype Report = Report(status: Status, actualLength: int)

  datatype Handle =
    | OverlappedEvent(x: Xid)
    | CompletionEvent(x: Xid)
    | ListUpdated
    | LoopStopped

  /** The waiting and reaping part of a thread; `target` is the event it finally waits for. */
  datatype Role =
    | Outside
    | AwaitToken(target: Handle)                                      // :617
    | SnapEnter(target: Handle)                                       // :570
    | Snapshot(target: Handle)                                        // :571-586
    | SnapReset(target: Handle)                                       // :588
    | SnapLeave(target: Handle)                                       // :589
    | AwaitAny(target: Handle)                                        // :591-599
    | FindFirst(target: Handle, h: Handle)                            // :602
    | FindTest(target: Handle, h: Handle, n: nat, cur: Option<Xid>)   // :603-605
    | FindNext(target: Handle, h: Handle, n: nat, at: Xid)            // :603, the advance
    | FetchResult(target: Handle, x: Xid)                             // :467-469
    | UnlinkEnter(target: Handle, x: Xid)                             // :471
    | Unlink(target: Handle, x: Xid)                                  // :472-486
    | UnlinkLeave(target: Handle, x: Xid)                             // :487
    | CallCallback(target: Handle, x: Xid)                            // :489
    | InCallback(target: Handle, x: Xid)                              // :490
    | PostEnter(target: Handle, x: Xid)                               // :492
    | Post(target: Handle, x: Xid)                                    // :493-494
    | PostLeave(target: Handle)                                       // :495
    | ReleaseToken                                                    // :630

  /** The submission or cancellation a thread is executing. */
  datatype Call =
    | NoCall
    | SubmitEnter(x: Xid)      // :405
    | SubmitIo(x: Xid)         // :407-414
    | SubmitReset(x: Xid)      // :416
    | SubmitInit(x: Xid)       // :418-419
    | SubmitLinkNext(x: Xid)   // :420-421
    | SubmitLinkLast(x: Xid)   // :422
    | SubmitLinkFirst(x: Xid)  // :423-424
    | SubmitCount(x: Xid)      // :425
    | SubmitFlag(x: Xid)       // :426
    | SubmitSignal             // :427
    | CancelEnter(x: Xid)      // :437
    | CancelIo(x: Xid)         // :438-455
    | CallLeave                // :412, :429, :456

  datatype Thread = Thread(role: Role, call: Call)

  datatype Link = Link(next: Option<Xid>, prev: Option<Xid>)
  datatype Flags = Flags(submitted: bool, completion: bool)
  datatype Info = Info(kind: TransferType, hasCallback: bool)

  /**
   What has happened to a transfer so far; the code does not read it. `aborts` holds, for every
   time a cancellation reached the kernel, how often the transfer had been submitted and unlinked.
   */
  datatype History = History(
    submits: nat, unlinks: nat, callbacks: nat, outcomes: seq<Outcome>, reports: seq<Report>, aborts: seq<(nat, nat)>)

  /**
   The fields of the context and, one sequence per group of fields, those of the transfers.
   `list`, `covered` and `hist` are auxiliary: no step of the code depends on them. `list` holds the
   transfers counted in `count` in submission order, `covered` says how many at its head were already
   linked when the reaper last filled `handles`.
   */
  datatype Memory = Memory(
    info: seq<Info>,
    link: seq<Link>,
    flags: seq<Flags>,
    io: seq<Io>,
    pub: seq<Report>,
    first: Option<Xid>,
    last: Option<Xid>,
    count: int,
    handles: seq<Handle>,
    loopStopped: bool,
    listUpdated: bool,
    list: seq<Xid>,
    covered: nat,
    hist: seq<History>)

  /** `holder`, the thread between acquiring and releasing hReaperLock, is auxiliary too. */
  datatype State = State(
    threads: seq<Thread>,
    mutex: Option<Tid>,
    reaperLock: bool,
    holder: Option<Tid>,
    mem: Memory)

  datatype Step =
    | Complete(x: Xid, outcome: Outcome)  // the kernel
    | StartWait(i: Tid, target: Handle)
    | StartSubmit(i: Tid, x: Xid)
    | StartCancel(i: Tid, x: Xid)
    | StopLoop
    | ResetLoop
    | RoleStep(i: Tid)
    | CallStep(i: Tid, result: IoResult)

  /** usbyb_update_finished_transfer */
  function FinishedReport(kind: TransferType, outcome: Outcome): Report {
    match outcome
    case Success(n) => Report(Completed, if kind == Control then n + 8 else n)
    case Aborted => Report(Cancelled, 0)
    case Failed => Report(Error, 0)
  }

  ghost predicate Typed(m: Memory) {
    && |m.link| == |m.flags| == |m.io| == |m.pub| == |m.hist| == |m.info|
    && (forall h :: h in m.handles ==> TypedHandle(h, |m.info|))
    && (m.first.Some? ==> m.first.value < |m.info|)
    && (m.last.Some? ==> m.last.value < |m.info|)
    && (forall x :: 0 <= x < |m.link| ==> TypedLink(m.link[x], |m.info|))
    && (forall k :: 0 <= k < |m.list| ==> m.list[k] < |m.info|)
  }

  ghost predicate TypedThreads(threads: seq<Thread>, n: nat) {
    forall i :: 0 <= i < |threads| ==> TypedThread(threads[i], n)
  }

  ghost predicate TypedHandle(h: Handle, n: nat) {
    match h
    case OverlappedEvent(x) => x < n
    case CompletionEvent(x) => x < n
    case _ => true
  }

  predicate TypedLink(l: Link, n: nat) {
    (l.next.Some? ==> l.next.value < n) && (l.prev.Some? ==> l.prev.value < n)
  }

  ghost predicate TypedThread(th: Thread, n: nat) {
    && ((!th.role.Outside? && !th.role.ReleaseToken?) ==>
          TypedHandle(th.role.target, n) && !th.role.target.OverlappedEvent? && !th.role.target.ListUpdated?)
    && (th.role.FindTest? && th.role.cur.Some? ==> th.role.cur.value < n)
    && (th.role.FindNext? ==> th.role.at < n)
    && (RoleTransfer(th.role).Some? ==> RoleTransfer(th.role).value < n)
    && (CallTransfer(th.call).Some? ==> CallTransfer(th.call).value < n)
  }

  /** The transfer a reaper has picked. */
  function RoleTransfer(r: Role): Option<Xid> {
    if r.FetchResult? || r.UnlinkEnter? || r.Unlink? || r.UnlinkLeave? || r.CallCallback?
       || r.InCallback? || r.PostEnter? || r.Post? then Some(r.x) else None
  }

  function CallTransfer(c: Call): Option<Xid> {
    if c.NoCall? || c.SubmitSignal? || c.CallLeave? then None else Some(c.x)
  }

  /** The thread is between acquiring and releasing hReaperLock. */
  predicate HoldsToken(r: Role) {
    !r.Outside? && !r.AwaitToken?
  }

  /** The thread is inside the critical section ctx_mutex. */
  predicate InMutex(th: Thread) {
    || th.role.Snapshot? || th.role.SnapReset? || th.role.SnapLeave?
    || th.role.Unlink? || th.role.UnlinkLeave? || th.role.Post? || th.role.PostLeave?
    || !(th.call.NoCall? || th.call.SubmitEnter? || th.call.CancelEnter?)
  }

  /** The thread is in user code and may call the library. */
  predicate InUserCode(th: Thread) {
    th.call.NoCall? && (th.role.Outside? || th.role.InCallback?)
  }

  predicate Signalled(m: Memory, h: Handle) {
    match h
    case OverlappedEvent(x) => x < |m.io| && !m.io[x].Pending?
    case CompletionEvent(x) => x < |m.flags| && m.flags[x].completion
    case ListUpdated => m.listUpdated
    case LoopStopped => m.loopStopped
  }

  /** The index WaitForMultipleObjects returns: the lowest signalled one, or |hs| when it has to block. */
  function FirstSignalled(m: Memory, hs: seq<Handle>): (k: nat)
    ensures k <= |hs|
    ensures k < |hs| ==> Signalled(m, hs[k])
    ensures forall j :: 0 <= j < k ==> !Signalled(m, hs[j])
  {
    if hs == [] || Signalled(m, hs[0]) then 0 else 1 + FirstSignalled(m, hs[1..])
  }

  /** The handles the snapshot loop stores: the loop follows the next pointers, at most n times. */
  function WalkHandles(link: seq<Link>, cur: Option<Xid>, n: int, target: Handle): seq<Handle>
    decreases n
  {
    if n <= 0 || cur.None? || cur.value >= |link| then []
    else
      (if OverlappedEvent(cur.value) != target then [OverlappedEvent(cur.value)] else [])
      + WalkHandles(link, link[cur.value].next, n - 1, target)
  }

  /** A transfer some thread is about to link and has not yet flagged as submitted. */
  ghost predicate Submitting(c: Call, x: Xid) {
    CallTransfer(c) == Some(x) && !c.CancelEnter? && !c.CancelIo?
  }

  ghost predicate WellTyped(s: State) {
    Typed(s.mem) && TypedThreads(s.threads, |s.mem.info|)
  }

  ghost predicate Enabled(s: State, step: Step)
    requires WellTyped(s)
  {
    match step
    case Complete(x, _) => x < |s.mem.io| && s.mem.io[x].Pending?
    case StartWait(i, target) =>
      && i < |s.threads| && s.threads[i] == Thread(Outside, NoCall)
      && (target.LoopStopped? || (target.CompletionEvent? && target.x < |s.mem.info|))
    case StartSubmit(i, x) =>
      && i < |s.threads| && InUserCode(s.threads[i])
      && x < |s.mem.info| && !s.mem.flags[x].submitted
      && (forall j :: 0 <= j < |s.threads| ==> !Submitting(s.threads[j].call, x))
    case StartCancel(i, x) => i < |s.threads| && InUserCode(s.threads[i]) && x < |s.mem.info|
    case StopLoop => true
    case ResetLoop => true
    case RoleStep(i) => i < |s.threads| && s.threads[i].call.NoCall? && RoleEnabled(s, s.threads[i].role)
    case CallStep(i, _) => i < |s.threads| && CallEnabled(s, s.threads[i].call)
  }

  /** The statement at this program counter does not block. */
  predicate RoleEnabled(s: State, r: Role) {
    match r
    case Outside => false
    case AwaitToken(target) => Signalled(s.mem, target) || s.reaperLock
    case SnapEnter(_) => s.mutex.None?
    case UnlinkEnter(_, _) => s.mutex.None?
    case PostEnter(_, _) => s.mutex.None?
    case AwaitAny(_) => FirstSignalled(s.mem, s.mem.handles) < |s.mem.handles|
    case FetchResult(_, x) => x < |s.mem.io| && !s.mem.io[x].Pending?
    case _ => true
  }

  predicate CallEnabled(s: State, c: Call) {
    match c
    case NoCall => false
    case SubmitEnter(_) => s.mutex.None?
    case CancelEnter(_) => s.mutex.None?
    case _ => true
  }

  function SetRole(s: State, i: Tid, r: Role): State
    requires i < |s.threads|
  {
    s.(threads := s.threads[i := s.threads[i].(role := r)])
  }

  function SetCall(s: State, i: Tid, c: Call): State
    requires i < |s.threads|
  {
    s.(threads := s.threads[i := s.threads[i].(call := c)])
  }

  ghost function Apply(s: State, step: Step): State
    requires WellTyped(s) && Enabled(s, step)
  {
    match step
    case Complete(x, outcome) => s.(mem := CompleteIo(s.mem, x, outcome))
    case StartWait(i, target) => SetRole(s, i, AwaitToken(target))
    case StartSubmit(i, x) => SetCall(s, i, SubmitEnter(x))
    case StartCancel(i, x) => SetCall(s, i, CancelEnter(x))
    case StopLoop => s.(mem := s.mem.(loopStopped := true))
    case ResetLoop => s.(mem := s.mem.(loopStopped := false))
    case RoleStep(i) => ApplyRole(s, i)
    case CallStep(i, result) => ApplyCall(s, i, result)
  }

  /** One statement of usbyi_win32_reap_until, usbyi_win32_reap_until_locked or usbyb_reap_transfer. */
  ghost function ApplyRole(s: State, i: Tid): (s': State)
    requires WellTyped(s) && i < |s.threads| && RoleEnabled(s, s.threads[i].role)
    ensures |s'.threads| == |s.threads| && s'.threads == SetRole(s, i, s'.threads[i].role).threads
  {
    var m := s.mem;
    assert TypedThread(s.threads[i], |m.info|);
    match s.threads[i].role
    case AwaitToken(t) =>
      if Signalled(m, t) then SetRole(s, i, Outside)
      else SetRole(s, i, SnapEnter(t)).(reaperLock := false, holder := Some(i))
    case SnapEnter(t) => SetRole(s, i, Snapshot(t)).(mutex := Some(i))
    case Snapshot(t) => SetRole(s, i, SnapReset(t)).(mem := FillHandles(m, t))
    case SnapReset(t) => SetRole(s, i, SnapLeave(t)).(mem := m.(listUpdated := false))
    case SnapLeave(t) => SetRole(s, i, AwaitAny(t)).(mutex := None)
    case AwaitAny(t) => SetRole(s, i, WokenRole(m, t))
    case FindFirst(t, h) => SetRole(s, i, FindTest(t, h, 0, m.first))
    case FindTest(t, h, n, cur) => SetRole(s, i, TestedRole(m, t, h, n, cur))
    case FindNext(t, h, n, at) => SetRole(s, i, FindTest(t, h, n + 1, m.link[at].next))
    case FetchResult(t, x) => SetRole(s, i, UnlinkEnter(t, x)).(mem := StoreReport(m, x))
    case UnlinkEnter(t, x) => SetRole(s, i, Unlink(t, x)).(mutex := Some(i))
    case Unlink(t, x) => SetRole(s, i, UnlinkLeave(t, x)).(mem := UnlinkTransfer(m, x))
    case UnlinkLeave(t, x) => SetRole(s, i, CallCallback(t, x)).(mutex := None)
    case CallCallback(t, x) =>
      if m.info[x].hasCallback then SetRole(s, i, InCallback(t, x)).(mem := CountCallback(m, x))
      else SetRole(s, i, PostEnter(t, x))
    case InCallback(t, x) => SetRole(s, i, PostEnter(t, x))
    case PostEnter(t, x) => SetRole(s, i, Post(t, x)).(mutex := Some(i))
    case Post(t, x) => SetRole(s, i, PostLeave(t)).(mem := PostCompletion(m, x))
    case PostLeave(t) => SetRole(s, i, SnapEnter(t)).(mutex := None)
    case ReleaseToken => SetRole(s, i, Outside).(reaperLock := true, holder := None)
  }

  /** One statement of usbyb_submit_transfer or usbyb_cancel_transfer. */
  ghost function ApplyCall(s: State, i: Tid, result: IoResult): (s': State)
    requires WellTyped(s) && i < |s.threads| && CallEnabled(s, s.threads[i].call)
    ensures |s'.threads| == |s.threads| && s'.threads == SetCall(s, i, s'.threads[i].call).threads
  {
    var m := s.mem;
    assert TypedThread(s.threads[i], |m.info|);
    match s.threads[i].call
    case SubmitEnter(x) => SetCall(s, i, SubmitIo(x)).(mutex := Some(i))
    case SubmitIo(x) =>
      if result.Refused? then SetCall(s, i, CallLeave)
      else SetCall(s, i, SubmitReset(x)).(mem := IssueIo(m, x, result))
    case SubmitReset(x) => SetCall(s, i, SubmitInit(x)).(mem := ResetCompletion(m, x))
    case SubmitInit(x) => SetCall(s, i, SubmitLinkNext(x)).(mem := m.(link := m.link[x := Link(None, m.last)]))
    case SubmitLinkNext(x) => SetCall(s, i, SubmitLinkLast(x)).(mem := LinkNext(m, x))
    case SubmitLinkLast(x) => SetCall(s, i, SubmitLinkFirst(x)).(mem := m.(last := Some(x)))
    case SubmitLinkFirst(x) => SetCall(s, i, SubmitCount(x)).(mem := LinkFirst(m, x))
    case SubmitCount(x) => SetCall(s, i, SubmitFlag(x)).(mem := CountTransfer(m, x))
    case SubmitFlag(x) => SetCall(s, i, SubmitSignal).(mem := SetSubmitted(m, x))
    case SubmitSignal => SetCall(s, i, CallLeave).(mem := m.(listUpdated := true))
    case CancelEnter(x) => SetCall(s, i, CancelIo(x)).(mutex := Some(i))
    case CancelIo(x) => SetCall(s, i, CallLeave).(mem := RequestAbort(m, x))
    case CallLeave => SetCall(s, i, NoCall).(mutex := None)
  }

  // ---------------------------------------------------------------- what the statements do to memory

  function SetHistory(m: Memory, x: Xid, h: History): Memory
    requires x < |m.hist|
  {
    m.(hist := m.hist[x := h])
  }

  /** The kernel finishes an operation and signals its event. */
  function CompleteIo(m: Memory, x: Xid, outcome: Outcome): Memory
    requires x < |m.io| == |m.hist|
  {
    SetHistory(m, x, m.hist[x].(outcomes := m.hist[x].outcomes + [outcome])).(io := m.io[x := Done(outcome)])
  }

  /** Lines 571-586; the list cannot change meanwhile, because the mutex is held. */
  function FillHandles(m: Memory, t: Handle): Memory {
    m.(handles := [t, ListUpdated] + WalkHandles(m.link, m.first, m.count, t), covered := |m.list|)
  }

  /** Where the reaper goes from WaitForMultipleObjects, lines 591-602. */
  function WokenRole(m: Memory, t: Handle): Role {
    var k := FirstSignalled(m, m.handles);
    if k == 0 then ReleaseToken
    else if k == 1 || k == |m.handles| then SnapEnter(t)
    else FindFirst(t, m.handles[k])
  }

  /** Where the reaper goes from testing one node, lines 603-609. */
  function TestedRole(m: Memory, t: Handle, h: Handle, n: nat, cur: Option<Xid>): Role {
    if n < m.count && cur.Some? then
      if OverlappedEvent(cur.value) == h then FetchResult(t, cur.value) else FindNext(t, h, n, cur.value)
    else SnapEnter(t)
  }

  function StoreReport(m: Memory, x: Xid): Memory
    requires x < |m.io| == |m.info| == |m.pub|
  {
    m.(pub := if m.io[x].Done? then m.pub[x := FinishedReport(m.info[x].kind, m.io[x].outcome)] else m.pub)
  }

  /** The pointer surgery of usbyb_reap_transfer, lines 472-486. */
  function UnlinkTransfer(m: Memory, x: Xid): Memory
    requires x < |m.link| == |m.flags| == |m.hist| == |m.pub|
    requires TypedLink(m.link[x], |m.link|)
  {
    SetHistory(m, x, m.hist[x].(unlinks := m.hist[x].unlinks + 1, reports := m.hist[x].reports + [m.pub[x]])).(
      link := UnlinkPointers(m.link, x),
      last := if m.link[x].next.Some? then m.last else m.link[x].prev,
      first := if m.link[x].prev.Some? then m.first else m.link[x].next,
      count := m.count - 1,
      flags := m.flags[x := m.flags[x].(submitted := false)],
      list := Without(m.list, x),
      covered := if x in m.list && IndexOf(m.list, x) < m.covered then m.covered - 1 else m.covered)
  }

  function UnlinkPointers(link: seq<Link>, x: Xid): (r: seq<Link>)
    requires x < |link| && TypedLink(link[x], |link|)
    ensures |r| == |link|
  {
    BypassPointers(link, x)[x := Link(None, None)]
  }

  /** The neighbours of x, lines 472-480. */
  function BypassPointers(link: seq<Link>, x: Xid): (r: seq<Link>)
    requires x < |link| && TypedLink(link[x], |link|)
    ensures |r| == |link|
  {
    var Link(next, prev) := link[x];
    var link1 := if next.Some? then link[next.value := link[next.value].(prev := prev)] else link;
    if prev.Some? then link1[prev.value := link1[prev.value].(next := next)] else link1
  }

  function CountCallback(m: Memory, x: Xid): Memory
    requires x < |m.hist|
  {
    SetHistory(m, x, m.hist[x].(callbacks := m.hist[x].callbacks + 1))
  }

  function PostCompletion(m: Memory, x: Xid): Memory
    requires x < |m.flags|
  {
    if m.flags[x].submitted then m else m.(flags := m.flags[x := m.flags[x].(completion := true)])
  }

  /** DeviceIoControl accepted the request; it may even have completed already. */
  function IssueIo(m: Memory, x: Xid, result: IoResult): Memory
    requires x < |m.io| == |m.hist| && !result.Refused?
  {
    if result.Queued? then m.(io := m.io[x := Pending])
    else CompleteIo(m, x, result.outcome)
  }

  function ResetCompletion(m: Memory, x: Xid): Memory
    requires x < |m.flags|
  {
    m.(flags := m.flags[x := m.flags[x].(completion := false)])
  }

  function LinkNext(m: Memory, x: Xid): Memory
    requires m.last.Some? ==> m.last.value < |m.link|
  {
    if m.last.None? then m else m.(link := m.link[m.last.value := m.link[m.last.value].(next := Some(x))])
  }

  function LinkFirst(m: Memory, x: Xid): Memory {
    if m.first.Some? then m else m.(first := Some(x))
  }

  function CountTransfer(m: Memory, x: Xid): Memory
    requires x < |m.hist|
  {
    SetHistory(m, x, m.hist[x].(submits := m.hist[x].submits + 1)).(count := m.count + 1, list := m.list + [x])
  }

  function SetSubmitted(m: Memory, x: Xid): Memory
    requires x < |m.flags|
  {
    m.(flags := m.flags[x := m.flags[x].(submitted := true)])
  }

  /**
   The kernel is asked to end the operation early, lines 438-455. It does so, if at all, by a later
   Complete step, so the request itself changes no state that the code reads.
   */
  function RequestAbort(m: Memory, x: Xid): Memory
    requires x < |m.flags| == |m.hist|
  {
    if m.flags[x].submitted
    then SetHistory(m, x, m.hist[x].(aborts := m.hist[x].aborts + [(m.hist[x].submits, m.hist[x].unlinks)]))
    else m
  }

  /** A context fresh from usbyb_init with transfers fresh from usbyb_init_transfer. */
  ghost predicate Init(s: State) {
    && WellTyped(s)
    && (forall i :: 0 <= i < |s.threads| ==> s.threads[i] == Thread(Outside, NoCall))
    && s.mutex == None && s.reaperLock && s.holder == None
    && InitMemory(s.mem)
  }

  ghost predicate InitMemory(m: Memory) {
    && (forall x :: 0 <= x < |m.link| ==> m.link[x] == Link(None, None))
    && (forall x :: 0 <= x < |m.flags| ==> m.flags[x] == Flags(false, true))
    && (forall x :: 0 <= x < |m.io| ==> m.io[x] == NeverIssued)
    && (forall x :: 0 <= x < |m.hist| ==> m.hist[x] == History(0, 0, 0, [], [], []))
    && m.first == None && m.last == None && m.count == 0 && m.handles == []
    && !m.loopStopped && !m.listUpdated && m.list == [] && m.covered == 0
  }
}
