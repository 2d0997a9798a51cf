/**
 What the transfer protocol keeps true of the shared memory, given the call `c` executing inside the
 critical section and the role `r` of the thread that holds the reaper token. Each part of the
 invariant speaks of a few fields only; the lemmas below say that each statement keeps all of them.
 */
module TransferMemory {
  import opened Options
  import opened Sequences
  import opened TransferProtocol

  ghost predicate MemoryOk(m: Memory, c: Call, r: Role) {
    && Typed(m)
    && LinksOk(m.link, m.list, m.count, m.first, m.last, c)
    && MembersOk(m.flags, m.list, c)
    && EventsOk(m.flags, c, r)
    && IoOk(m.io, m.list, c)
    && HistoryOk(m.hist, m.info, m.io, m.list, c, r)
    && CoverOk(m.list, m.covered, m.handles, m.listUpdated, c)
    && ReaperAt(m, r)
  }

  /** The submission whose pointers are initialised and which is not yet counted. */
  predicate Linking(c: Call) {
    c.SubmitLinkNext? || c.SubmitLinkLast? || c.SubmitLinkFirst? || c.SubmitCount?
  }

  function LastOf(list: seq<Xid>): Option<Xid> {
    if list == [] then None else Some(list[|list| - 1])
  }

  /**
   The pointers represent `list`: next and prev mirror each other along it and the counter is its
   length. A submission under way may have written some of its pointers, always beyond the end.
   */
  ghost predicate LinksOk(link: seq<Link>, list: seq<Xid>, count: int, first: Option<Xid>, last: Option<Xid>, c: Call) {
    && Distinct(list)
    && count == |list|
    && first == (if list != [] then Some(list[0]) else if c.SubmitCount? then Some(c.x) else None)
    && last == (if c.SubmitLinkFirst? || c.SubmitCount? then Some(c.x) else LastOf(list))
    && (forall k :: 0 <= k < |list| ==> list[k] < |link|)
    && (forall k :: 0 <= k < |list| - 1 ==> link[list[k]].next == Some(list[k + 1]))
    && (forall k :: 1 <= k < |list| ==> link[list[k]].prev == Some(list[k - 1]))
    && (list != [] ==>
          && link[list[0]].prev == None
          && link[list[|list| - 1]].next ==
             (if c.SubmitLinkLast? || c.SubmitLinkFirst? || c.SubmitCount? then Some(c.x) else None))
    && (Linking(c) ==> c.x < |link| && c.x !in list && link[c.x] == Link(None, LastOf(list)))
  }

  /** The listed transfers are exactly the submitted ones, up to the transfer being flagged right now. */
  ghost predicate MembersOk(flags: seq<Flags>, list: seq<Xid>, c: Call) {
    forall x :: 0 <= x < |flags| ==> (x in list <==> flags[x].submitted || c == SubmitFlag(x))
  }

  /** The completion event of the transfer has been reset and the transfer is not yet flagged. */
  predicate ResetDone(c: Call, x: Xid) {
    (Linking(c) || c.SubmitInit? || c.SubmitFlag?) && c.x == x
  }

  /** The transfer has been unlinked and its completion event not yet reconsidered. */
  predicate Settling(r: Role, x: Xid) {
    (r.UnlinkLeave? || r.CallCallback? || r.InCallback? || r.PostEnter? || r.Post?) && r.x == x
  }

  /** The completion event is signalled for transfers at rest, and only for those. */
  ghost predicate EventsOk(flags: seq<Flags>, c: Call, r: Role) {
    forall x :: 0 <= x < |flags| ==>
      && (flags[x].completion ==> !flags[x].submitted && !ResetDone(c, x) && !Settling(r, x))
      && (!flags[x].completion ==> flags[x].submitted || ResetDone(c, x) || Settling(r, x))
  }

  /** The kernel has accepted the transfer and it is not reaped yet. */
  ghost predicate Live(list: seq<Xid>, c: Call, x: Xid) {
    x in list || ResetDone(c, x) || c == SubmitReset(x)
  }

  ghost predicate IoOk(io: seq<Io>, list: seq<Xid>, c: Call) {
    forall x :: 0 <= x < |io| ==>
      && (Live(list, c, x) ==> !io[x].NeverIssued?)
      && (io[x].Pending? ==> Live(list, c, x))
  }

  /** The callback for the last unlink is still due. */
  predicate CallbackDue(r: Role, x: Xid) {
    (r.UnlinkLeave? || r.CallCallback?) && r.x == x
  }

  ghost predicate HistoryOk(hist: seq<History>, info: seq<Info>, io: seq<Io>, list: seq<Xid>, c: Call, r: Role) {
    && |hist| == |info| == |io|
    && forall x :: 0 <= x < |hist| ==>
         TransferHistoryOk(hist[x], info[x], io[x], x in list, Live(list, c, x), CallbackDue(r, x))
  }

  /**
   Every submission is unlinked at most once, every unlink reports the outcome of its own submission,
   and is followed by one callback; every abort request found a submission in flight.
   */
  ghost predicate TransferHistoryOk(h: History, info: Info, io: Io, listed: bool, live: bool, due: bool) {
    && h.submits == h.unlinks + (if listed then 1 else 0)
    && h.callbacks + (if due && info.hasCallback then 1 else 0) == (if info.hasCallback then h.unlinks else 0)
    && |h.reports| == h.unlinks
    && |h.outcomes| == h.unlinks + (if live && io.Done? then 1 else 0)
    && (live && io.Done? ==> h.outcomes[h.unlinks] == io.outcome)
    && (forall k :: 0 <= k < h.unlinks ==> h.reports[k] == FinishedReport(info.kind, h.outcomes[k]))
    && (forall k :: 0 <= k < |h.aborts| ==> h.aborts[k].0 == h.aborts[k].1 + 1)
  }

  /** No wakeup is lost: whatever the last snapshot missed will be announced. */
  ghost predicate CoverOk(list: seq<Xid>, covered: nat, handles: seq<Handle>, listUpdated: bool, c: Call) {
    && covered <= |list|
    && (forall k :: 0 <= k < covered ==> OverlappedEvent(list[k]) in handles)
    && (covered < |list| ==> listUpdated || c.SubmitFlag? || c.SubmitSignal?)
  }

  ghost predicate ReaperOk(handles: seq<Handle>, list: seq<Xid>, covered: nat, io: seq<Io>, pub: seq<Report>,
                           info: seq<Info>, r: Role) {
    match r
    case SnapReset(t) => FreshHandles(handles, list, covered, t) && covered == |list|
    case SnapLeave(t) => FreshHandles(handles, list, covered, t)
    case AwaitAny(t) => FreshHandles(handles, list, covered, t)
    case FindFirst(_, h) => Finished(list, io, h)
    case FindTest(_, h, n, cur) => Finished(list, io, h) && n < |list| && cur == Some(list[n]) && h.x in list[n..]
    case FindNext(_, h, n, at) => Finished(list, io, h) && n < |list| && at == list[n] && at != h.x && h.x in list[n..]
    case FetchResult(_, x) => Finished(list, io, OverlappedEvent(x))
    case UnlinkEnter(_, x) => Fetched(list, io, pub, info, x)
    case Unlink(_, x) => Fetched(list, io, pub, info, x)
    case _ => true
  }

  /** The handle array is what the last snapshot left, and nothing has been unlinked since. */
  ghost predicate FreshHandles(handles: seq<Handle>, list: seq<Xid>, covered: nat, target: Handle) {
    && covered <= |list|
    && |handles| == 2 + covered
    && handles[0] == target && handles[1] == ListUpdated
    && (forall k :: 0 <= k < covered ==> handles[k + 2] == OverlappedEvent(list[k]))
  }

  /** The handle is that of a listed transfer the kernel is done with. */
  ghost predicate Finished(list: seq<Xid>, io: seq<Io>, h: Handle) {
    h.OverlappedEvent? && h.x in list && h.x < |io| && io[h.x].Done?
  }

  ghost predicate Fetched(list: seq<Xid>, io: seq<Io>, pub: seq<Report>, info: seq<Info>, x: Xid) {
    && Finished(list, io, OverlappedEvent(x))
    && x < |pub| == |info|
    && pub[x] == FinishedReport(info[x].kind, io[x].outcome)
  }

  /** The reaper's part of the invariant. */
  ghost predicate ReaperAt(m: Memory, r: Role) {
    ReaperOk(m.handles, m.list, m.covered, m.io, m.pub, m.info, r)
  }

  // ---------------------------------------------------------------- the kernel

  lemma CompleteIoOk(m: Memory, x: Xid, outcome: Outcome, c: Call, r: Role)
    requires MemoryOk(m, c, r) && x < |m.io| && m.io[x].Pending?
    ensures MemoryOk(CompleteIo(m, x, outcome), c, r)
  {
    hide LinksOk, MembersOk, EventsOk, IoOk, HistoryOk, CoverOk, ReaperOk;
    CompleteLive(m.io, m.list, c, x, outcome);
    OutcomeHistoryOk(m, x, outcome, c, r, c);
    CompleteReaperOk(m, x, outcome, r);
  }

  lemma CompleteLive(io: seq<Io>, list: seq<Xid>, c: Call, x: Xid, outcome: Outcome)
    requires IoOk(io, list, c) && x < |io| && io[x].Pending?
    ensures Live(list, c, x) && IoOk(io[x := Done(outcome)], list, c)
  {
  }

  /** One more outcome, for an operation that had none yet. */
  lemma OutcomeHistoryOk(m: Memory, x: Xid, outcome: Outcome, c: Call, r: Role, c': Call)
    requires HistoryOk(m.hist, m.info, m.io, m.list, c, r) && x < |m.io|
    requires forall y: Xid :: y != x ==> Live(m.list, c, y) == Live(m.list, c', y)
    requires Live(m.list, c', x) && (Live(m.list, c, x) ==> m.io[x].Pending?)
    ensures HistoryOk(CompleteIo(m, x, outcome).hist, m.info, m.io[x := Done(outcome)], m.list, c', r)
  {
    var h' := CompleteIo(m, x, outcome).hist[x];
    assert TransferHistoryOk(m.hist[x], m.info[x], m.io[x], x in m.list, Live(m.list, c, x), CallbackDue(r, x));
    HistorySet(m.hist, m.info, m.io, m.list, c, r, x, h', Done(outcome), m.list, c', r);
  }

  lemma CompleteReaperOk(m: Memory, x: Xid, outcome: Outcome, r: Role)
    requires ReaperAt(m, r) && x < |m.io| && m.io[x].Pending?
    ensures ReaperOk(m.handles, m.list, m.covered, m.io[x := Done(outcome)], m.pub, m.info, r)
  {
  }

  /** The history after something happened to one transfer. */
  lemma HistorySet(hist: seq<History>, info: seq<Info>, io: seq<Io>, list: seq<Xid>, c: Call, r: Role,
                   x: Xid, h: History, ioX: Io, list': seq<Xid>, c': Call, r': Role)
    requires HistoryOk(hist, info, io, list, c, r) && x < |hist|
    requires forall y: Xid :: y != x ==>
               && (y in list <==> y in list')
               && Live(list, c, y) == Live(list', c', y)
               && CallbackDue(r, y) == CallbackDue(r', y)
    requires TransferHistoryOk(h, info[x], ioX, x in list', Live(list', c', x), CallbackDue(r', x))
    ensures HistoryOk(hist[x := h], info, io[x := ioX], list', c', r')
  {
  }

  // ---------------------------------------------------------------- the reaper

  /** The snapshot loop stores the overlapped event of every listed transfer, in order. */
  lemma {:induction false} WalkHandlesList(link: seq<Link>, list: seq<Xid>, k: nat, target: Handle)
    requires k <= |list| && !target.OverlappedEvent?
    requires forall j :: 0 <= j < |list| ==> list[j] < |link|
    requires forall j :: 0 <= j < |list| - 1 ==> link[list[j]].next == Some(list[j + 1])
    ensures var cur := if k < |list| then Some(list[k]) else None;
            var w := WalkHandles(link, cur, |list| - k, target);
            |w| == |list| - k && forall j :: 0 <= j < |w| ==> w[j] == OverlappedEvent(list[k + j])
    decreases |list| - k
  {
    if k < |list| {
      WalkHandlesList(link, list, k + 1, target);
      if k + 1 == |list| {
        assert WalkHandles(link, link[list[k]].next, 0, target) == [];
      }
    }
  }

  lemma FillHandlesOk(m: Memory, t: Handle)
    requires MemoryOk(m, NoCall, Snapshot(t)) && TypedHandle(t, |m.info|) && !t.OverlappedEvent?
    ensures MemoryOk(FillHandles(m, t), NoCall, SnapReset(t))
  {
    hide LinksOk, MembersOk, EventsOk, IoOk, HistoryOk, CoverOk, ReaperOk;
    FilledHandles(m, t);
    EventsMove(m.flags, NoCall, Snapshot(t), NoCall, SnapReset(t));
    HistoryMove(m.hist, m.info, m.io, m.list, NoCall, Snapshot(t), NoCall, SnapReset(t));
  }

  /** The snapshot has the event of every listed transfer at its place. */
  lemma FilledHandles(m: Memory, t: Handle)
    requires Typed(m) && LinksOk(m.link, m.list, m.count, m.first, m.last, NoCall)
    requires TypedHandle(t, |m.info|) && !t.OverlappedEvent?
    ensures var m' := FillHandles(m, t);
            && Typed(m')
            && CoverOk(m'.list, m'.covered, m'.handles, m'.listUpdated, NoCall)
            && ReaperAt(m', SnapReset(t))
  {
    WalkHandlesList(m.link, m.list, 0, t);
    var m' := FillHandles(m, t);
    assert forall k :: 0 <= k < |m.list| ==> m'.handles[k + 2] == OverlappedEvent(m.list[k]);
    forall h | h in m'.handles
      ensures TypedHandle(h, |m.info|)
    {
      var k := IndexOf(m'.handles, h);
    }
  }

  /** The memory does not notice a move of the reaper that leaves the same obligations. */
  lemma RoleMoveOk(m: Memory, c: Call, r: Role, r': Role)
    requires MemoryOk(m, c, r) && ReaperAt(m, r')
    requires forall y: Xid :: Settling(r, y) == Settling(r', y)
    requires forall y: Xid :: CallbackDue(r, y) == CallbackDue(r', y)
    ensures MemoryOk(m, c, r')
  {
    hide LinksOk, CoverOk, HistoryOk, IoOk, MembersOk, EventsOk, ReaperAt;
    EventsMove(m.flags, c, r, c, r');
    HistoryMove(m.hist, m.info, m.io, m.list, c, r, c, r');
  }

  lemma EventsMove(flags: seq<Flags>, c: Call, r: Role, c': Call, r': Role)
    requires EventsOk(flags, c, r)
    requires forall y: Xid :: Settling(r, y) == Settling(r', y)
    requires forall y: Xid :: ResetDone(c, y) == ResetDone(c', y)
    ensures EventsOk(flags, c', r')
  {
  }

  lemma HistoryMove(hist: seq<History>, info: seq<Info>, io: seq<Io>, list: seq<Xid>, c: Call, r: Role, c': Call,
                    r': Role)
    requires HistoryOk(hist, info, io, list, c, r)
    requires forall y: Xid :: CallbackDue(r, y) == CallbackDue(r', y)
    requires forall y: Xid :: Live(list, c, y) == Live(list, c', y)
    ensures HistoryOk(hist, info, io, list, c', r')
  {
  }

  lemma SnapResetOk(m: Memory, t: Handle)
    requires MemoryOk(m, NoCall, SnapReset(t))
    ensures MemoryOk(m.(listUpdated := false), NoCall, SnapLeave(t))
  {
    hide LinksOk, HistoryOk, IoOk, MembersOk, EventsOk;
    EventsMove(m.flags, NoCall, SnapReset(t), NoCall, SnapLeave(t));
    HistoryMove(m.hist, m.info, m.io, m.list, NoCall, SnapReset(t), NoCall, SnapLeave(t));
  }

  /** A wait that returns a transfer's event has found a listed transfer the kernel is done with. */
  lemma WokenOk(m: Memory, t: Handle, c: Call)
    requires MemoryOk(m, c, AwaitAny(t)) && FirstSignalled(m, m.handles) < |m.handles|
    ensures ReaperAt(m, WokenRole(m, t))
  {
    hide LinksOk, HistoryOk, CoverOk, MembersOk, EventsOk;
    var k := FirstSignalled(m, m.handles);
    if 2 <= k {
      assert m.handles[k] == OverlappedEvent(m.list[k - 2]);
    }
  }

  lemma FindFirstOk(m: Memory, t: Handle, h: Handle, c: Call)
    requires MemoryOk(m, c, FindFirst(t, h))
    ensures ReaperAt(m, FindTest(t, h, 0, m.first))
  {
    assert m.list[0..] == m.list;
  }

  /** The search never runs off the list. */
  lemma TestedOk(m: Memory, t: Handle, h: Handle, n: nat, cur: Option<Xid>, c: Call)
    requires MemoryOk(m, c, FindTest(t, h, n, cur))
    ensures n < m.count && cur.Some? && ReaperAt(m, TestedRole(m, t, h, n, cur))
  {
  }

  lemma FindNextOk(m: Memory, t: Handle, h: Handle, n: nat, at: Xid, c: Call)
    requires MemoryOk(m, c, FindNext(t, h, n, at))
    ensures at < |m.link| && ReaperAt(m, FindTest(t, h, n + 1, m.link[at].next))
  {
    hide HistoryOk, IoOk, CoverOk, MembersOk, EventsOk;
    assert m.list[n..] == [m.list[n]] + m.list[n + 1..];
    assert n + 1 < |m.list| && m.link[m.list[n]].next == Some(m.list[n + 1]);
    hide LinksOk, Distinct, Typed;
  }

  lemma StoreReportOk(m: Memory, t: Handle, x: Xid, c: Call)
    requires MemoryOk(m, c, FetchResult(t, x))
    ensures x < |m.info| && MemoryOk(StoreReport(m, x), c, UnlinkEnter(t, x))
  {
    hide LinksOk, MembersOk, EventsOk, IoOk, HistoryOk, CoverOk;
    EventsMove(m.flags, c, FetchResult(t, x), c, UnlinkEnter(t, x));
    HistoryMove(m.hist, m.info, m.io, m.list, c, FetchResult(t, x), c, UnlinkEnter(t, x));
  }

  lemma CountCallbackOk(m: Memory, t: Handle, x: Xid, c: Call)
    requires MemoryOk(m, c, CallCallback(t, x)) && x < |m.info| && m.info[x].hasCallback
    ensures MemoryOk(CountCallback(m, x), c, InCallback(t, x))
  {
    hide LinksOk, CoverOk, MembersOk, IoOk, EventsOk;
    EventsMove(m.flags, c, CallCallback(t, x), c, InCallback(t, x));
  }

  /** Without a callback to call, none is due. */
  lemma SkipCallbackOk(m: Memory, t: Handle, x: Xid, c: Call)
    requires MemoryOk(m, c, CallCallback(t, x)) && x < |m.info| && !m.info[x].hasCallback
    ensures MemoryOk(m, c, PostEnter(t, x))
  {
    hide LinksOk, CoverOk, MembersOk, IoOk, EventsOk;
    EventsMove(m.flags, c, CallCallback(t, x), c, PostEnter(t, x));
  }

  lemma PostFlagsOk(m: Memory, t: Handle, x: Xid)
    requires MembersOk(m.flags, m.list, NoCall) && EventsOk(m.flags, NoCall, Post(t, x)) && x < |m.flags|
    requires ReaperAt(m, Post(t, x))
    ensures var m' := PostCompletion(m, x);
            && MembersOk(m'.flags, m.list, NoCall)
            && EventsOk(m'.flags, NoCall, PostLeave(t))
            && ReaperAt(m', PostLeave(t))
  {
  }

  lemma PostCompletionOk(m: Memory, t: Handle, x: Xid)
    requires MemoryOk(m, NoCall, Post(t, x)) && x < |m.info|
    ensures MemoryOk(PostCompletion(m, x), NoCall, PostLeave(t))
  {
    hide LinksOk, MembersOk, EventsOk, IoOk, HistoryOk, CoverOk, ReaperOk;
    HistoryMove(m.hist, m.info, m.io, m.list, NoCall, Post(t, x), NoCall, PostLeave(t));
    PostFlagsOk(m, t, x);
  }

  // ---------------------------------------------------------------- unlinking

  /** Unlinking by the pointers is removing from the sequence. */
  lemma UnlinkLinksOk(link: seq<Link>, list: seq<Xid>, count: int, first: Option<Xid>, last: Option<Xid>, x: Xid)
    requires LinksOk(link, list, count, first, last, NoCall) && x in list
    requires x < |link| && TypedLink(link[x], |link|)
    ensures LinksOk(UnlinkPointers(link, x), Without(list, x), count - 1,
                    if link[x].prev.Some? then first else link[x].next,
                    if link[x].next.Some? then last else link[x].prev, NoCall)
  {
    var k := IndexOf(list, x);
    DistinctWithout(list, x);
    UnlinkPointersAt(link, list, k);
    UnlinkNexts(link, UnlinkPointers(link, x), list, k);
    UnlinkPrevs(link, UnlinkPointers(link, x), list, k);
    hide UnlinkPointers, Without, IndexOf, Distinct;
    if |list| > 1 {
      assert Without(list, x)[0] == list[if k == 0 then 1 else 0];
      assert Without(list, x)[|list| - 2] == list[if k == |list| - 1 then |list| - 2 else |list| - 1];
    }
  }

  lemma UnlinkNexts(link: seq<Link>, link': seq<Link>, list: seq<Xid>, k: nat)
    requires k < |list| && |link'| == |link| && forall j :: 0 <= j < |list| ==> list[j] < |link|
    requires forall j :: 0 <= j < |list| - 1 ==> link[list[j]].next == Some(list[j + 1])
    requires link[list[|list| - 1]].next == None
    requires forall j :: 0 <= j < |list| && j != k ==>
               link'[list[j]].next == if j == k - 1 then link[list[k]].next else link[list[j]].next
    ensures var list' := list[..k] + list[k + 1..];
            && (forall j :: 0 <= j < |list'| - 1 ==> link'[list'[j]].next == Some(list'[j + 1]))
            && (list' != [] ==> link'[list'[|list'| - 1]].next == None)
  {
    var list' := list[..k] + list[k + 1..];
    assert forall j :: 0 <= j < |list'| ==> list'[j] == list[if j < k then j else j + 1];
    forall j | 0 <= j < |list'| - 1
      ensures link'[list'[j]].next == Some(list'[j + 1])
    {
      var i := if j < k then j else j + 1;
      assert link[list[i]].next == Some(list[i + 1]);
      if j == k - 1 {
        assert link[list[k]].next == Some(list[k + 1]);
      }
    }
  }

  lemma UnlinkPrevs(link: seq<Link>, link': seq<Link>, list: seq<Xid>, k: nat)
    requires k < |list| && |link'| == |link| && forall j :: 0 <= j < |list| ==> list[j] < |link|
    requires forall j :: 1 <= j < |list| ==> link[list[j]].prev == Some(list[j - 1])
    requires link[list[0]].prev == None
    requires forall j :: 0 <= j < |list| && j != k ==>
               link'[list[j]].prev == if j == k + 1 then link[list[k]].prev else link[list[j]].prev
    ensures var list' := list[..k] + list[k + 1..];
            && (forall j :: 1 <= j < |list'| ==> link'[list'[j]].prev == Some(list'[j - 1]))
            && (list' != [] ==> link'[list'[0]].prev == None)
  {
    var list' := list[..k] + list[k + 1..];
    assert forall j :: 0 <= j < |list'| ==> list'[j] == list[if j < k then j else j + 1];
    forall j | 1 <= j < |list'|
      ensures link'[list'[j]].prev == Some(list'[j - 1])
    {
      var i := if j < k then j else j + 1;
      assert link[list[i]].prev == Some(list[i - 1]);
      if j == k {
        assert link[list[k]].prev == Some(list[k - 1]);
      }
    }
  }

  /** Unlinking writes the next pointer of the predecessor and the prev pointer of the successor. */
  lemma UnlinkPointersAt(link: seq<Link>, list: seq<Xid>, k: nat)
    requires Distinct(list) && k < |list|
    requires forall j :: 0 <= j < |list| ==> list[j] < |link|
    requires TypedLink(link[list[k]], |link|)
    requires link[list[k]].prev == if k == 0 then None else Some(list[k - 1])
    requires link[list[k]].next == if k == |list| - 1 then None else Some(list[k + 1])
    ensures var link' := UnlinkPointers(link, list[k]);
            forall j :: 0 <= j < |list| && j != k ==>
              && link'[list[j]].next == (if j == k - 1 then link[list[k]].next else link[list[j]].next)
              && link'[list[j]].prev == (if j == k + 1 then link[list[k]].prev else link[list[j]].prev)
  {
  }

  lemma UnlinkOk(m: Memory, t: Handle, x: Xid)
    requires MemoryOk(m, NoCall, Unlink(t, x)) && x < |m.info|
    ensures MemoryOk(UnlinkTransfer(m, x), NoCall, UnlinkLeave(t, x))
  {
    hide LinksOk, MembersOk, EventsOk, IoOk, HistoryOk, CoverOk;
    UnlinkLinksOk(m.link, m.list, m.count, m.first, m.last, x);
    UnlinkCoverOk(m, x);
    UnlinkHistoryOk(m, t, x);
    UnlinkFlagsOk(m, t, x);
    UnlinkTyped(m, x);
    hide Typed, Without, IndexOf, UnlinkPointers, Distinct;
  }

  lemma UnlinkTyped(m: Memory, x: Xid)
    requires Typed(m) && x < |m.info|
    ensures Typed(UnlinkTransfer(m, x))
  {
    DistinctFree(m.list, x);
  }

  lemma DistinctFree<T>(s: seq<T>, x: T)
    ensures forall y :: y in Without(s, x) ==> y in s
  {
  }

  lemma UnlinkFlagsOk(m: Memory, t: Handle, x: Xid)
    requires Typed(m) && LinksOk(m.link, m.list, m.count, m.first, m.last, NoCall) && x in m.list && m.io[x].Done?
    requires MembersOk(m.flags, m.list, NoCall) && EventsOk(m.flags, NoCall, Unlink(t, x)) && IoOk(m.io, m.list, NoCall)
    ensures var m' := UnlinkTransfer(m, x);
            && MembersOk(m'.flags, m'.list, NoCall)
            && EventsOk(m'.flags, NoCall, UnlinkLeave(t, x))
            && IoOk(m'.io, m'.list, NoCall)
  {
    DistinctWithout(m.list, x);
  }

  lemma UnlinkCoverOk(m: Memory, x: Xid)
    requires CoverOk(m.list, m.covered, m.handles, m.listUpdated, NoCall) && x in m.list
    ensures CoverOk(Without(m.list, x),
                    if IndexOf(m.list, x) < m.covered then m.covered - 1 else m.covered,
                    m.handles, m.listUpdated, NoCall)
  {
    hide IndexOf, Without;
    var k, list' := IndexOf(m.list, x), Without(m.list, x);
    forall j | 0 <= j < |list'| && j < (if k < m.covered then m.covered - 1 else m.covered)
      ensures OverlappedEvent(list'[j]) in m.handles
    {
      assert list'[j] == m.list[if j < k then j else j + 1];
    }
  }

  lemma UnlinkRecorded(h: History, info: Info, io: Io, report: Report)
    requires TransferHistoryOk(h, info, io, true, true, false) && io.Done?
    requires report == FinishedReport(info.kind, io.outcome)
    ensures TransferHistoryOk(h.(unlinks := h.unlinks + 1, reports := h.reports + [report]), info, io,
                              false, false, true)
  {
  }

  lemma UnlinkHistoryOk(m: Memory, t: Handle, x: Xid)
    requires MemoryOk(m, NoCall, Unlink(t, x)) && x < |m.info|
    ensures var m' := UnlinkTransfer(m, x);
            HistoryOk(m'.hist, m'.info, m'.io, m'.list, NoCall, UnlinkLeave(t, x))
  {
    DistinctWithout(m.list, x);
    hide LinksOk, CoverOk, MembersOk, EventsOk, Without, IndexOf, UnlinkPointers, IoOk, Distinct, FinishedReport;
    var h := m.hist[x].(unlinks := m.hist[x].unlinks + 1, reports := m.hist[x].reports + [m.pub[x]]);
    UnlinkRecorded(m.hist[x], m.info[x], m.io[x], m.pub[x]);
    HistorySet(m.hist, m.info, m.io, m.list, NoCall, Unlink(t, x), x, h, m.io[x], Without(m.list, x), NoCall,
               UnlinkLeave(t, x));
  }

  // ---------------------------------------------------------------- submitting and cancelling

  predicate AnnouncementDue(c: Call) {
    c.SubmitFlag? || c.SubmitSignal?
  }

  /** A call moves on within the same stage of a submission. */
  lemma CallMoveOk(m: Memory, c: Call, c': Call, r: Role)
    requires MemoryOk(m, c, r)
    requires forall y: Xid :: ResetDone(c, y) == ResetDone(c', y)
    requires c.SubmitReset? == c'.SubmitReset? == false
    requires c.SubmitFlag? == c'.SubmitFlag? == false
    requires AnnouncementDue(c) && !AnnouncementDue(c') ==> m.listUpdated
    ensures MembersOk(m.flags, m.list, c') && EventsOk(m.flags, c', r) && IoOk(m.io, m.list, c')
    ensures HistoryOk(m.hist, m.info, m.io, m.list, c', r)
    ensures CoverOk(m.list, m.covered, m.handles, m.listUpdated, c')
  {
    hide LinksOk, Typed, ReaperAt;
    EventsMove(m.flags, c, r, c', r);
    HistoryMove(m.hist, m.info, m.io, m.list, c, r, c', r);
    hide HistoryOk, EventsOk;
  }

  /** A call that is not in the middle of a submission moves on. */
  lemma OuterMoveOk(m: Memory, c: Call, c': Call, r: Role)
    requires MemoryOk(m, c, r)
    requires c.NoCall? || c.SubmitIo? || c.CancelIo? || c.CallLeave?
    requires c'.NoCall? || c'.SubmitIo? || c'.CancelIo? || c'.CallLeave?
    ensures MemoryOk(m, c', r)
  {
    hide MembersOk, EventsOk, IoOk, HistoryOk, CoverOk, ReaperOk;
    CallMoveOk(m, c, c', r);
  }

  lemma IssueIoOk(m: Memory, x: Xid, result: IoResult, r: Role)
    requires MemoryOk(m, SubmitIo(x), r) && x < |m.info| && !m.flags[x].submitted && !result.Refused?
    ensures MemoryOk(IssueIo(m, x, result), SubmitReset(x), r)
  {
    hide LinksOk, MembersOk, EventsOk, IoOk, HistoryOk, CoverOk, ReaperOk;
    var ioX := if result.Queued? then Pending else Done(result.outcome);
    IssueFlagsOk(m.flags, m.list, m.io, x, ioX, r);
    IssueReaperOk(m, x, ioX, r);
    LinksMove(m.link, m.list, m.count, m.first, m.last, SubmitIo(x), SubmitReset(x));
    CoverMove(m.list, m.covered, m.handles, m.listUpdated, SubmitIo(x), SubmitReset(x));
    if result.Queued? {
      PendingHistoryOk(m, x, r);
    } else {
      OutcomeHistoryOk(m, x, result.outcome, SubmitIo(x), r, SubmitReset(x));
    }
  }

  lemma PendingHistoryOk(m: Memory, x: Xid, r: Role)
    requires HistoryOk(m.hist, m.info, m.io, m.list, SubmitIo(x), r) && x < |m.io| && x !in m.list
    ensures HistoryOk(m.hist, m.info, m.io[x := Pending], m.list, SubmitReset(x), r)
  {
  }

  lemma IssueFlagsOk(flags: seq<Flags>, list: seq<Xid>, io: seq<Io>, x: Xid, ioX: Io, r: Role)
    requires MembersOk(flags, list, SubmitIo(x)) && EventsOk(flags, SubmitIo(x), r) && IoOk(io, list, SubmitIo(x))
    requires x < |io| == |flags| && !flags[x].submitted && !ioX.NeverIssued?
    ensures x !in list && MembersOk(flags, list, SubmitReset(x)) && EventsOk(flags, SubmitReset(x), r)
    ensures IoOk(io[x := ioX], list, SubmitReset(x))
  {
  }

  /** The reaper never looks at the operation of a transfer that is not listed. */
  lemma IssueReaperOk(m: Memory, x: Xid, ioX: Io, r: Role)
    requires ReaperAt(m, r) && x < |m.io| && x !in m.list
    ensures ReaperOk(m.handles, m.list, m.covered, m.io[x := ioX], m.pub, m.info, r)
  {
  }

  lemma LinksMove(link: seq<Link>, list: seq<Xid>, count: int, first: Option<Xid>, last: Option<Xid>, c: Call, c': Call)
    requires LinksOk(link, list, count, first, last, c) && !Linking(c) && !Linking(c')
    ensures LinksOk(link, list, count, first, last, c')
  {
  }

  lemma CoverMove(list: seq<Xid>, covered: nat, handles: seq<Handle>, listUpdated: bool, c: Call, c': Call)
    requires CoverOk(list, covered, handles, listUpdated, c) && AnnouncementDue(c) == AnnouncementDue(c')
    ensures CoverOk(list, covered, handles, listUpdated, c')
  {
  }

  lemma ResetFlagsOk(flags: seq<Flags>, list: seq<Xid>, io: seq<Io>, x: Xid, r: Role)
    requires MembersOk(flags, list, SubmitReset(x))
    requires EventsOk(flags, SubmitReset(x), r) && IoOk(io, list, SubmitReset(x))
    requires x < |flags| && !flags[x].submitted
    ensures var flags' := flags[x := flags[x].(completion := false)];
            && MembersOk(flags', list, SubmitInit(x))
            && EventsOk(flags', SubmitInit(x), r)
            && IoOk(io, list, SubmitInit(x))
  {
  }

  lemma ResetCompletionOk(m: Memory, x: Xid, r: Role)
    requires MemoryOk(m, SubmitReset(x), r) && x < |m.info| && !m.flags[x].submitted
    ensures MemoryOk(ResetCompletion(m, x), SubmitInit(x), r)
  {
    hide LinksOk, MembersOk, EventsOk, IoOk, HistoryOk, CoverOk, ReaperOk;
    ResetFlagsOk(m.flags, m.list, m.io, x, r);
    HistoryMove(m.hist, m.info, m.io, m.list, SubmitReset(x), r, SubmitInit(x), r);
    LinksMove(m.link, m.list, m.count, m.first, m.last, SubmitReset(x), SubmitInit(x));
    CoverMove(m.list, m.covered, m.handles, m.listUpdated, SubmitReset(x), SubmitInit(x));
  }

  lemma SubmitInitOk(m: Memory, x: Xid, r: Role)
    requires MemoryOk(m, SubmitInit(x), r) && x < |m.info| && !m.flags[x].submitted
    ensures MemoryOk(m.(link := m.link[x := Link(None, m.last)]), SubmitLinkNext(x), r)
  {
    hide LinksOk, MembersOk, EventsOk, IoOk, HistoryOk, CoverOk, ReaperOk;
    CallMoveOk(m, SubmitInit(x), SubmitLinkNext(x), r);
    InitLinkOk(m, x);
  }

  lemma InitLinkOk(m: Memory, x: Xid)
    requires LinksOk(m.link, m.list, m.count, m.first, m.last, SubmitInit(x))
    requires MembersOk(m.flags, m.list, SubmitInit(x))
    requires x < |m.link| == |m.flags| && !m.flags[x].submitted
    ensures LinksOk(m.link[x := Link(None, m.last)], m.list, m.count, m.first, m.last, SubmitLinkNext(x))
  {
  }

  lemma NextLinkOk(m: Memory, x: Xid)
    requires LinksOk(m.link, m.list, m.count, m.first, m.last, SubmitLinkNext(x))
    ensures m.last.Some? ==> m.last.value < |m.link|
    ensures var m' := LinkNext(m, x); LinksOk(m'.link, m.list, m.count, m.first, m.last, SubmitLinkLast(x))
  {
  }

  lemma LinkNextOk(m: Memory, x: Xid, r: Role)
    requires MemoryOk(m, SubmitLinkNext(x), r) && x < |m.info|
    ensures MemoryOk(LinkNext(m, x), SubmitLinkLast(x), r)
  {
    hide LinksOk, MembersOk, EventsOk, IoOk, HistoryOk, CoverOk, ReaperOk;
    CallMoveOk(m, SubmitLinkNext(x), SubmitLinkLast(x), r);
    NextLinkOk(m, x);
  }

  lemma LinkLastOk(m: Memory, x: Xid, r: Role)
    requires MemoryOk(m, SubmitLinkLast(x), r) && x < |m.info|
    ensures MemoryOk(m.(last := Some(x)), SubmitLinkFirst(x), r)
  {
    hide MembersOk, EventsOk, IoOk, HistoryOk, CoverOk, ReaperOk;
    CallMoveOk(m, SubmitLinkLast(x), SubmitLinkFirst(x), r);
  }

  lemma LinkFirstOk(m: Memory, x: Xid, r: Role)
    requires MemoryOk(m, SubmitLinkFirst(x), r) && x < |m.info|
    ensures MemoryOk(LinkFirst(m, x), SubmitCount(x), r)
  {
    hide MembersOk, EventsOk, IoOk, HistoryOk, CoverOk, ReaperOk;
    CallMoveOk(m, SubmitLinkFirst(x), SubmitCount(x), r);
  }

  lemma CountTransferOk(m: Memory, x: Xid, r: Role)
    requires MemoryOk(m, SubmitCount(x), r) && x < |m.info|
    requires !r.SnapReset?
    ensures MemoryOk(CountTransfer(m, x), SubmitFlag(x), r)
  {
    hide MembersOk, EventsOk, IoOk, HistoryOk, ReaperOk, LinksOk;
    EventsMove(m.flags, SubmitCount(x), r, SubmitFlag(x), r);
    CountLinksOk(m.link, m.list, m.count, m.first, m.last, x);
    CountReaperOk(m, x, r);
    CountHistoryOk(m, x, r);
    CountFlagsOk(m.flags, m.list, m.io, x);
  }

  lemma CountLinksOk(link: seq<Link>, list: seq<Xid>, count: int, first: Option<Xid>, last: Option<Xid>, x: Xid)
    requires LinksOk(link, list, count, first, last, SubmitCount(x))
    ensures x !in list && LinksOk(link, list + [x], count + 1, first, last, SubmitFlag(x))
  {
  }

  lemma CountFlagsOk(flags: seq<Flags>, list: seq<Xid>, io: seq<Io>, x: Xid)
    requires MembersOk(flags, list, SubmitCount(x)) && IoOk(io, list, SubmitCount(x))
    ensures MembersOk(flags, list + [x], SubmitFlag(x)) && IoOk(io, list + [x], SubmitFlag(x))
  {
  }

  /** Appending does not disturb the reaper, wherever it is outside the critical section. */
  lemma CountReaperOk(m: Memory, x: Xid, r: Role)
    requires ReaperAt(m, r) && !r.SnapReset?
    ensures ReaperOk(m.handles, m.list + [x], m.covered, m.io, m.pub, m.info, r)
  {
    if (r.FindTest? || r.FindNext?) && r.n <= |m.list| {
      assert (m.list + [x])[r.n..] == m.list[r.n..] + [x];
    }
  }

  lemma CountHistoryOk(m: Memory, x: Xid, r: Role)
    requires HistoryOk(m.hist, m.info, m.io, m.list, SubmitCount(x), r) && x < |m.hist| && x !in m.list
    ensures var m' := CountTransfer(m, x); HistoryOk(m'.hist, m'.info, m'.io, m'.list, SubmitFlag(x), r)
  {
  }

  lemma SetSubmittedOk(m: Memory, x: Xid, r: Role)
    requires MemoryOk(m, SubmitFlag(x), r) && x < |m.info| && x in m.list
    ensures MemoryOk(SetSubmitted(m, x), SubmitSignal, r)
  {
    hide LinksOk, MembersOk, EventsOk, IoOk, HistoryOk, CoverOk, ReaperOk;
    HistoryMove(m.hist, m.info, m.io, m.list, SubmitFlag(x), r, SubmitSignal, r);
    LinksMove(m.link, m.list, m.count, m.first, m.last, SubmitFlag(x), SubmitSignal);
    CoverMove(m.list, m.covered, m.handles, m.listUpdated, SubmitFlag(x), SubmitSignal);
    FlagOk(m.flags, m.list, m.io, x, r);
  }

  lemma FlagOk(flags: seq<Flags>, list: seq<Xid>, io: seq<Io>, x: Xid, r: Role)
    requires MembersOk(flags, list, SubmitFlag(x)) && EventsOk(flags, SubmitFlag(x), r) && IoOk(io, list, SubmitFlag(x))
    requires x < |flags| && x in list
    ensures var flags' := flags[x := flags[x].(submitted := true)];
            && MembersOk(flags', list, SubmitSignal)
            && EventsOk(flags', SubmitSignal, r)
            && IoOk(io, list, SubmitSignal)
  {
  }

  lemma SubmitSignalOk(m: Memory, r: Role)
    requires MemoryOk(m, SubmitSignal, r)
    ensures MemoryOk(m.(listUpdated := true), CallLeave, r)
  {
    hide MembersOk, EventsOk, IoOk, HistoryOk, ReaperOk, LinksOk;
    var m' := m.(listUpdated := true);
    CallMoveOk(m', SubmitSignal, CallLeave, r);
    LinksMove(m.link, m.list, m.count, m.first, m.last, SubmitSignal, CallLeave);
  }

  lemma RequestAbortOk(m: Memory, x: Xid, r: Role)
    requires MemoryOk(m, CancelIo(x), r) && x < |m.info|
    ensures MemoryOk(RequestAbort(m, x), CallLeave, r)
  {
    hide LinksOk, EventsOk, IoOk, HistoryOk, CoverOk, ReaperOk;
    OuterMoveOk(m, CancelIo(x), CallLeave, r);
    assert m.flags[x].submitted ==> x in m.list;
    AbortHistoryOk(m, x, r);
  }

  /** The request is addressed to the submission in flight. */
  lemma AbortHistoryOk(m: Memory, x: Xid, r: Role)
    requires HistoryOk(m.hist, m.info, m.io, m.list, CallLeave, r) && x < |m.hist| == |m.flags|
    requires m.flags[x].submitted ==> x in m.list
    ensures HistoryOk(RequestAbort(m, x).hist, m.info, m.io, m.list, CallLeave, r)
  {
    if m.flags[x].submitted {
      HistorySet(m.hist, m.info, m.io, m.list, CallLeave, r, x, RequestAbort(m, x).hist[x], m.io[x], m.list,
                 CallLeave, r);
      assert m.io[x := m.io[x]] == m.io;
    }
  }
}
