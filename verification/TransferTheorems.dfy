/**
 What the transfer protocol promises in every reachable state and over whole runs, for any number of
 threads and transfers and under every interleaving.
 */
module TransferTheorems {
  import opened Options
  import opened Sequences
  import opened TransferProtocol
  import opened TransferMemory
  import opened TransferInvariant

  /** states[k + 1] is states[k] after steps[k]. */
  ghost predicate IsRun(states: seq<State>, steps: seq<Step>) {
    && |states| == |steps| + 1
    && Init(states[0])
    && forall k :: 0 <= k < |steps| ==> Follows(states[k], steps[k], states[k + 1])
  }

  ghost predicate Follows(s: State, step: Step, s': State) {
    WellTyped(s) && Enabled(s, step) && s' == Apply(s, step)
  }

  ghost predicate Reachable(s: State) {
    exists states, steps :: IsRun(states, steps) && states[|steps|] == s
  }

  lemma {:induction false} RunInv(states: seq<State>, steps: seq<Step>, k: nat)
    requires IsRun(states, steps) && k <= |steps|
    ensures Inv(states[k])
  {
    if k == 0 {
      InitInv(states[0]);
    } else {
      RunInv(states, steps, k - 1);
      assert Follows(states[k - 1], steps[k - 1], states[k]);
      StepKeepsInv(states[k - 1], steps[k - 1]);
    }
  }

  lemma ReachableInv(s: State)
    requires Reachable(s)
    ensures Inv(s)
  {
    var states, steps :| IsRun(states, steps) && states[|steps|] == s;
    RunInv(states, steps, |steps|);
  }

  // ---------------------------------------------------------------- safety in every reachable state

  /** Either hReaperLock is signalled and no thread holds it, or exactly one thread does. */
  lemma TokenConserved(s: State)
    requires Reachable(s)
    ensures s.reaperLock ==> forall i :: 0 <= i < |s.threads| ==> !HoldsToken(s.threads[i].role)
    ensures !s.reaperLock ==>
              exists i :: && 0 <= i < |s.threads| && HoldsToken(s.threads[i].role)
                          && forall j :: 0 <= j < |s.threads| && HoldsToken(s.threads[j].role) ==> j == i
  {
    ReachableInv(s);
    hide MemoryOk, SubmitsOk;
    if !s.reaperLock {
      var i := s.holder.value;
      assert HoldsToken(s.threads[i].role);
    }
  }

  /** No two threads are inside the critical section. */
  lemma MutualExclusion(s: State, i: Tid, j: Tid)
    requires Reachable(s) && i < |s.threads| && j < |s.threads| && InMutex(s.threads[i]) && InMutex(s.threads[j])
    ensures i == j
  {
    ReachableInv(s);
    hide MemoryOk, SubmitsOk, TokenOk;
  }

  /**
   A transfer in flight is in the handle array of the last snapshot, or hTransferListUpdated is
   signalled, or the thread inside the critical section is on its way to signal it.
   */
  lemma NoLostWakeup(s: State, x: Xid)
    requires Reachable(s) && x in s.mem.list
    ensures || OverlappedEvent(x) in s.mem.handles
            || s.mem.listUpdated
            || AnnouncementDue(InnerCall(s.threads, s.mutex))
  {
    ReachableInv(s);
    hide LinksOk, MembersOk, EventsOk, IoOk, HistoryOk, ReaperOk, SubmitsOk;
    var k := IndexOf(s.mem.list, x);
    if k < s.mem.covered {
      assert OverlappedEvent(s.mem.list[k]) in s.mem.handles;
    }
  }

  /**
   A reaper blocks in WaitForMultipleObjects only while there is nothing to reap: with the mutex free,
   every transfer in flight is among its handles and still pending in the kernel, and the event it
   finally waits for is not signalled.
   */
  lemma BlockedReaperHasNothingToReap(s: State, i: Tid)
    requires Reachable(s) && i < |s.threads| && s.threads[i].call.NoCall? && s.threads[i].role.AwaitAny?
    requires !RoleEnabled(s, s.threads[i].role) && s.mutex.None?
    ensures WellTyped(s) && !Signalled(s.mem, s.threads[i].role.target)
    ensures forall x :: x in s.mem.list ==>
              OverlappedEvent(x) in s.mem.handles && x < |s.mem.io| && s.mem.io[x].Pending?
  {
    ReachableInv(s);
    RoleFacts(s, i);
    var m := s.mem;
    NothingCovered(m, s.threads[i].role.target);
  }

  lemma NothingCovered(m: Memory, t: Handle)
    requires MemoryOk(m, NoCall, AwaitAny(t)) && FirstSignalled(m, m.handles) == |m.handles|
    ensures !Signalled(m, t)
    ensures forall x :: x in m.list ==> OverlappedEvent(x) in m.handles && x < |m.io| && m.io[x].Pending?
  {
    hide LinksOk, MembersOk, EventsOk, IoOk, HistoryOk;
    assert m.handles[0] == t && m.handles[1] == ListUpdated;
    assert !m.listUpdated;
    forall x | x in m.list
      ensures OverlappedEvent(x) in m.handles && x < |m.io| && m.io[x].Pending?
    {
      var k := IndexOf(m.list, x);
      assert m.handles[k + 2] == OverlappedEvent(x);
    }
  }

  /**
   The search outside the mutex finds the transfer whose event fired: at every node the walk is still
   on the list, within the first tran_count nodes, with the transfer ahead of it, and it never takes
   the exit that finds nothing.
   */
  lemma SearchSucceeds(s: State, i: Tid)
    requires Reachable(s) && i < |s.threads| && s.threads[i].call.NoCall? && HoldsToken(s.threads[i].role)
    ensures Searching(s.mem, s.threads[i].role)
  {
    ReachableInv(s);
    RoleFacts(s, i);
    hide MemoryOk;
    SearchOk(s.mem, InnerCall(s.threads, s.mutex), s.threads[i].role);
  }

  ghost predicate Searching(m: Memory, r: Role) {
    match r
    case FindTest(t, h, n, cur) =>
      && n < m.count == |m.list| && cur == Some(m.list[n])
      && h.OverlappedEvent? && h.x in m.list[n..]
      && (|| TestedRole(m, t, h, n, cur) == FetchResult(t, h.x)
          || TestedRole(m, t, h, n, cur) == FindNext(t, h, n, m.list[n]))
    case FindNext(t, h, n, at) => n + 1 < |m.list| && at < |m.link| && m.link[at].next == Some(m.list[n + 1])
    case FetchResult(_, x) => x in m.list && x < |m.io| && m.io[x].Done?
    case _ => true
  }

  lemma SearchOk(m: Memory, c: Call, r: Role)
    requires MemoryOk(m, c, r)
    ensures Searching(m, r)
  {
    hide MembersOk, EventsOk, IoOk, HistoryOk, CoverOk;
    match r
    case FindNext(t, h, n, at) => FindNextOk(m, t, h, n, at, c);
    case _ =>
  }

  /**
   With the mutex free, a signalled completion event means the transfer is not in flight, and a
   transfer that is neither in flight nor just being reaped has its event signalled.
   */
  lemma CompletionEventTruth(s: State, x: Xid)
    requires Reachable(s) && s.mutex.None? && x < |s.mem.info|
    ensures WellTyped(s)
    ensures s.mem.flags[x].completion ==> !s.mem.flags[x].submitted && x !in s.mem.list
    ensures !s.mem.flags[x].submitted && !Settling(ReaperRole(s.threads, s.holder), x) ==> s.mem.flags[x].completion
    ensures s.mem.flags[x].submitted <==> x in s.mem.list
    ensures Signalled(s.mem, CompletionEvent(x)) <==> s.mem.flags[x].completion
  {
    ReachableInv(s);
    hide LinksOk, IoOk, HistoryOk, CoverOk, ReaperOk, SubmitsOk;
  }

  /** The statement at hand would use the transfer. */
  predicate Uses(r: Role, x: Xid) {
    || RoleTransfer(r) == Some(x)
    || ((r.FindFirst? || r.FindTest? || r.FindNext?) && r.h == OverlappedEvent(x))
    || (r.FindTest? && r.cur == Some(x)) || (r.FindNext? && r.at == x)
  }

  /**
   The transfer has been let go: it is not on the list, no thread that waits or reaps will touch it, and no wait for
   any of several objects includes its event.
   */
  ghost predicate AtRest(s: State, x: Xid) {
    && x < |s.mem.flags| && s.mem.flags[x].completion && !s.mem.flags[x].submitted && x !in s.mem.list
    && (forall i :: 0 <= i < |s.threads| ==> !Uses(s.threads[i].role, x))
    && (forall i :: 0 <= i < |s.threads| && s.threads[i].role.AwaitAny? ==> OverlappedEvent(x) !in s.mem.handles)
  }

  /** A transfer whose completion event is signalled is at rest, even inside the critical section. */
  lemma CompletedIsLetGo(s: State, x: Xid)
    requires Reachable(s) && x < |s.mem.flags|
    ensures s.mem.flags[x].completion ==> AtRest(s, x)
  {
    ReachableInv(s);
    if s.mem.flags[x].completion {
      CompletionAtRest(s, x);
    }
  }

  lemma CompletionAtRest(s: State, x: Xid)
    requires Inv(s) && x < |s.mem.flags| && s.mem.flags[x].completion
    ensures AtRest(s, x)
  {
    LetGo(s.mem, InnerCall(s.threads, s.mutex), ReaperRole(s.threads, s.holder), x);
    hide MemoryOk, SubmitsOk, MutexOk;
    forall i | 0 <= i < |s.threads|
      ensures !Uses(s.threads[i].role, x)
      ensures s.threads[i].role.AwaitAny? ==> OverlappedEvent(x) !in s.mem.handles
    {
      assert TypedThread(s.threads[i], |s.mem.info|);
      if HoldsToken(s.threads[i].role) {
        assert s.holder == Some(i) && ReaperRole(s.threads, s.holder) == s.threads[i].role;
      }
    }
  }

  lemma LetGo(m: Memory, c: Call, r: Role, x: Xid)
    requires MemoryOk(m, c, r) && x < |m.flags| && m.flags[x].completion
    ensures x !in m.list && !m.flags[x].submitted && !Uses(r, x)
    ensures r.AwaitAny? && !r.target.OverlappedEvent? ==> OverlappedEvent(x) !in m.handles
  {
    hide LinksOk, IoOk, HistoryOk, CoverOk;
    if r.AwaitAny? && !r.target.OverlappedEvent? {
      forall k | 0 <= k < |m.handles|
        ensures m.handles[k] != OverlappedEvent(x)
      {
        assert k >= 2 ==> m.handles[k] == OverlappedEvent(m.list[k - 2]);
      }
    }
  }

  /** The pointers of the k-th listed transfer lead to its neighbours on the list, and nowhere at its ends. */
  ghost predicate Joined(link: seq<Link>, list: seq<Xid>, k: nat)
    requires k < |list|
  {
    && list[k] < |link|
    && link[list[k]].next == (if k + 1 < |list| then Some(list[k + 1]) else None)
    && link[list[k]].prev == (if 0 < k then Some(list[k - 1]) else None)
  }

  /** The pointers represent one acyclic sequence of exactly the transfers in flight. */
  lemma ListRepresented(s: State)
    requires Reachable(s) && s.mutex.None?
    ensures var m := s.mem;
            && Distinct(m.list)
            && (forall x :: 0 <= x < |m.flags| ==> (x in m.list <==> m.flags[x].submitted))
            && m.count == |m.list| && m.last == LastOf(m.list)
            && m.first == (if m.list == [] then None else Some(m.list[0]))
            && (forall k :: 0 <= k < |m.list| ==> Joined(m.link, m.list, k))
  {
    ReachableInv(s);
    hide EventsOk, IoOk, HistoryOk, CoverOk, ReaperOk, SubmitsOk;
  }

  /** With the mutex free, no pointer of the context or of a listed transfer leads to it either. */
  lemma NothingPointsAtCompleted(s: State, x: Xid)
    requires Reachable(s) && s.mutex.None? && x < |s.mem.flags| && s.mem.flags[x].completion
    ensures var m := s.mem;
            && m.first != Some(x) && m.last != Some(x)
            && forall y :: y in m.list ==> y < |m.link| && m.link[y].next != Some(x) && m.link[y].prev != Some(x)
  {
    CompletedIsLetGo(s, x);
    ListRepresented(s);
    NeighboursListed(s.mem.link, s.mem.list, x);
    hide Reachable;
    if s.mem.list != [] {
      assert s.mem.list[0] in s.mem.list && s.mem.list[|s.mem.list| - 1] in s.mem.list;
    }
  }

  lemma NeighboursListed(link: seq<Link>, list: seq<Xid>, x: Xid)
    requires x !in list
    requires forall k :: 0 <= k < |list| ==> Joined(link, list, k)
    ensures forall y :: y in list ==> y < |link| && link[y].next != Some(x) && link[y].prev != Some(x)
  {
    forall y | y in list
      ensures y < |link| && link[y].next != Some(x) && link[y].prev != Some(x)
    {
      var k := IndexOf(list, y);
      assert Joined(link, list, k);
      assert k + 1 < |list| ==> list[k + 1] in list;
      assert 0 < k ==> list[k - 1] in list;
    }
  }

  // ---------------------------------------------------------------- exactly once

  /**
   Submissions and unlinks of a transfer alternate; each unlink delivers the outcome of its own
   submission and is followed by exactly one start of the callback; and a cancellation reached the
   kernel only while the submission it meant was in flight.
   */
  lemma ExactlyOnce(s: State, x: Xid)
    requires Reachable(s) && x < |s.mem.info|
    ensures WellTyped(s)
    ensures var h, info := s.mem.hist[x], s.mem.info[x];
            && h.submits == h.unlinks + (if x in s.mem.list then 1 else 0)
            && |h.reports| == h.unlinks <= |h.outcomes| <= h.unlinks + 1
            && (forall k :: 0 <= k < h.unlinks ==> h.reports[k] == FinishedReport(info.kind, h.outcomes[k]))
            && (info.hasCallback ==>
                  h.callbacks + (if CallbackDue(ReaperRole(s.threads, s.holder), x) then 1 else 0) == h.unlinks)
            && (!info.hasCallback ==> h.callbacks == 0)
            && (forall k :: 0 <= k < |h.aborts| ==> h.aborts[k].0 == h.aborts[k].1 + 1)
  {
    ReachableInv(s);
    hide LinksOk, MembersOk, EventsOk, IoOk, CoverOk, ReaperOk, SubmitsOk;
  }

  ghost function SumSubmits(hist: seq<History>): nat {
    if hist == [] then 0 else SumSubmits(hist[..|hist| - 1]) + hist[|hist| - 1].submits
  }

  ghost function SumUnlinks(hist: seq<History>): nat {
    if hist == [] then 0 else SumUnlinks(hist[..|hist| - 1]) + hist[|hist| - 1].unlinks
  }

  ghost function Below(list: seq<Xid>, n: nat): set<Xid> {
    set x | x in list && x < n
  }

  lemma {:induction false} SumDifference(hist: seq<History>, list: seq<Xid>)
    requires forall x :: 0 <= x < |hist| ==> hist[x].submits == hist[x].unlinks + (if x in list then 1 else 0)
    ensures SumSubmits(hist) == SumUnlinks(hist) + |Below(list, |hist|)|
  {
    var n := |hist|;
    if n == 0 {
      assert Below(list, 0) == {};
    } else {
      SumDifference(hist[..n - 1], list);
      assert Below(list, n) == if n - 1 in list then Below(list, n - 1) + {n - 1} else Below(list, n - 1);
    }
  }

  lemma {:induction false} DistinctCardinality(list: seq<Xid>, n: nat)
    requires Distinct(list) && forall x :: x in list ==> x < n
    ensures |Below(list, n)| == |list|
  {
    if list == [] {
      assert Below(list, n) == {};
    } else {
      var l := |list| - 1;
      var rest, x := list[..l], list[l];
      assert list == rest + [x] && x in list && x !in rest;
      assert forall y :: y in rest ==> y in list;
      DistinctCardinality(rest, n);
      BelowAppend(rest, x, n);
    }
  }

  lemma BelowAppend(list: seq<Xid>, x: Xid, n: nat)
    requires x < n
    ensures Below(list + [x], n) == Below(list, n) + {x}
  {
    forall y
      ensures y in Below(list + [x], n) <==> y in Below(list, n) + {x}
    {
      assert y in list + [x] <==> y in list || y == x;
    }
  }

  /** Over any run, the successful submissions are the unlinks plus the transfers now in flight. */
  lemma SubmissionsConserved(s: State)
    requires Reachable(s)
    ensures SumSubmits(s.mem.hist) == SumUnlinks(s.mem.hist) + s.mem.count
  {
    ReachableInv(s);
    var m := s.mem;
    assert Typed(m) && Distinct(m.list) && m.count == |m.list|;
    forall x | 0 <= x < |m.hist|
      ensures m.hist[x].submits == m.hist[x].unlinks + (if x in m.list then 1 else 0)
    {
      ExactlyOnce(s, x);
    }
    SumDifference(m.hist, m.list);
    DistinctCardinality(m.list, |m.hist|);
  }
}
