/**
 The doubly linked list of transfers in flight, on the heap (src/os/libusb0_win32.c:418-426, 472-486,
 578-586, 601-610), and its refinement to the pointers and the sequence of the transfer protocol.
 */
module InFlightList {
  import opened Options
  import opened Sequences
  import opened TransferProtocol
  import opened TransferMemory
  import opened HandleList

  class Transfer {
    const id: nat
    var next: Transfer?
    var prev: Transfer?
    var submitted: bool

    constructor (id: nat)
      ensures this.id == id && next == null && prev == null && !submitted
    {
      this.id := id;
      next, prev, submitted := null, null, false;
    }
  }

  function IdOf(t: Transfer?): Option<Xid> {
    if t == null then None else Some(t.id)
  }

  /** The pointers after a submission, lines 418-422. */
  function AppendPointers(link: seq<Link>, last: Option<Xid>, x: Xid): (r: seq<Link>)
    requires x < |link| && (last.Some? ==> last.value < |link|)
    ensures |r| == |link|
  {
    var link1 := link[x := Link(None, last)];
    if last.None? then link1 else link1[last.value := link1[last.value].(next := Some(x))]
  }

  /** A submission of the protocol that nobody interrupts does to the pointers what Append does. */
  lemma SubmissionStatements(m: Memory, x: Xid)
    requires x < |m.link| == |m.hist| && (m.last.Some? ==> m.last.value < |m.link|)
    ensures var m1 := m.(link := m.link[x := Link(None, m.last)]);
            var m2 := LinkNext(m1, x).(last := Some(x));
            var m3 := CountTransfer(LinkFirst(m2, x), x);
            && m3.link == AppendPointers(m.link, m.last, x)
            && m3.first == (if m.first.None? then Some(x) else m.first)
            && m3.last == Some(x) && m3.count == m.count + 1 && m3.list == m.list + [x]
  {
  }

  lemma AppendLinksOk(link: seq<Link>, list: seq<Xid>, count: int, first: Option<Xid>, last: Option<Xid>, x: Xid)
    requires LinksOk(link, list, count, first, last, NoCall) && x < |link| && x !in list
    ensures last.Some? ==> last.value < |link|
    ensures LinksOk(AppendPointers(link, last, x), list + [x], count + 1,
                    if first.None? then Some(x) else first, Some(x), NoCall)
  {
  }

  class Context {
    ghost const all: seq<Transfer> // every transfer, by its identity
    var first: Transfer?
    var last: Transfer?
    var tranCount: int
    ghost var list: seq<Xid> // the transfers in flight, in submission order

    constructor (ghost all: seq<Transfer>)
      requires forall i :: 0 <= i < |all| ==>
                 all[i].id == i && all[i].next == null && all[i].prev == null && !all[i].submitted
      ensures this.all == all && Valid() && list == []
    {
      this.all := all;
      first, last, tranCount, list := null, null, 0, [];
    }

    /** The pointers of all transfers, as the protocol sees them. */
    ghost function Links(): (r: seq<Link>)
      reads all
      ensures |r| == |all|
    {
      seq(|all|, i requires 0 <= i < |all| reads all => Link(IdOf(all[i].next), IdOf(all[i].prev)))
    }

    ghost predicate Known(t: Transfer?) {
      t == null || (t.id < |all| && all[t.id] == t)
    }

    /** The pointers of the transfers lead to transfers known by their own identity. */
    ghost predicate Tied()
      reads all`next, all`prev
    {
      && (forall i :: 0 <= i < |all| ==> all[i].id == i)
      && (forall i :: 0 <= i < |all| ==> Known(all[i].next) && Known(all[i].prev))
    }

    /** So do all pointers. */
    ghost predicate Closed()
      reads this`first, this`last, all`next, all`prev
    {
      Tied() && Known(first) && Known(last)
    }

    lemma TiedAt(t: Transfer)
      requires Tied() && Known(t)
      ensures Known(t.next) && Known(t.prev) && Links()[t.id] == Link(IdOf(t.next), IdOf(t.prev))
    {
    }

    ghost predicate FlagsAgree()
      reads this`list, all`submitted
    {
      forall i :: 0 <= i < |all| ==> (all[i].submitted <==> i in list)
    }

    ghost predicate Valid()
      reads this, all
    {
      Closed() && FlagsAgree() && LinksOk(Links(), list, tranCount, IdOf(first), IdOf(last), NoCall)
    }

    method SetSubmitted(t: Transfer, submitted: bool)
      modifies t`submitted
      ensures t.submitted == submitted && Links() == old(Links())
    {
      t.submitted := submitted;
      assert Links() == old(Links());
    }

    /** A single pointer is written. */
    method SetNext(t: Transfer, u: Transfer?)
      requires Tied() && Known(t) && Known(u)
      modifies t`next
      ensures Tied() && t.next == u
      ensures Links() == old(Links())[t.id := old(Links())[t.id].(next := IdOf(u))]
    {
      t.next := u;
      assert Links() == old(Links())[t.id := old(Links())[t.id].(next := IdOf(u))];
    }

    method SetPrev(t: Transfer, u: Transfer?)
      requires Tied() && Known(t) && Known(u)
      modifies t`prev
      ensures Tied() && t.prev == u
      ensures Links() == old(Links())[t.id := old(Links())[t.id].(prev := IdOf(u))]
    {
      t.prev := u;
      assert Links() == old(Links())[t.id := old(Links())[t.id].(prev := IdOf(u))];
    }

    method SetBoth(t: Transfer, next: Transfer?, prev: Transfer?)
      requires Tied() && Known(t) && Known(next) && Known(prev)
      modifies t`next, t`prev
      ensures Tied() && t.next == next && t.prev == prev
      ensures Links() == old(Links())[t.id := Link(IdOf(next), IdOf(prev))]
    {
      hide Tied, Links;
      SetNext(t, next);
      SetPrev(t, prev);
    }

    /** The pointers of a submission, lines 418-424. */
    method LinkLast(t: Transfer)
      requires Closed() && Known(t) && t != last
      modifies this`first, this`last, all
      ensures Closed() && IdOf(last) == Some(t.id)
      ensures IdOf(first) == if old(first) == null then Some(t.id) else old(IdOf(first))
      ensures Links() == AppendPointers(old(Links()), old(IdOf(last)), t.id)
      ensures forall i :: 0 <= i < |all| ==> all[i].submitted == old(all[i].submitted)
    {
      hide Tied, Links;
      SetBoth(t, null, last);
      if last != null {
        SetNext(last, t);
      }
      last := t;
      if first == null {
        first := t;
      }
    }

    /** The writes of a submission, lines 418-426. */
    method WriteAppend(t: Transfer)
      requires Closed() && Known(t) && t != last
      modifies this, all
      ensures list == old(list) + [t.id] && tranCount == old(tranCount) + 1
      ensures Closed() && IdOf(last) == Some(t.id)
      ensures IdOf(first) == if old(first) == null then Some(t.id) else old(IdOf(first))
      ensures Links() == AppendPointers(old(Links()), old(IdOf(last)), t.id)
      ensures forall i :: 0 <= i < |all| ==> all[i].submitted == (i == t.id || old(all[i].submitted))
    {
      hide AppendPointers, Links;
      LinkLast(t);
      tranCount := tranCount + 1;
      SetSubmitted(t, true);
      list := list + [t.id];
    }

    /** usbyb_submit_transfer: the transfer goes to the end of the list. */
    method Append(t: Transfer)
      requires Valid() && Known(t) && !t.submitted
      modifies this, all
      ensures Valid() && list == old(list) + [t.id]
      ensures Links() == AppendPointers(old(Links()), old(IdOf(last)), t.id)
    {
      hide LinksOk, AppendPointers;
      AppendLinksOk(Links(), list, tranCount, IdOf(first), IdOf(last), t.id);
      LastListed();
      WriteAppend(t);
    }

    /** The neighbours of a reaped transfer, lines 472-480. */
    method Bypass(t: Transfer)
      requires Closed() && Known(t) && t.next != t && t.prev != t
      modifies this`first, this`last, all
      ensures Closed()
      ensures IdOf(first) == if old(t.prev) == null then old(IdOf(t.next)) else old(IdOf(first))
      ensures IdOf(last) == if old(t.next) == null then old(IdOf(t.prev)) else old(IdOf(last))
      ensures TypedLink(old(Links())[t.id], |all|) && Links() == BypassPointers(old(Links()), t.id)
      ensures forall i :: 0 <= i < |all| ==> all[i].submitted == old(all[i].submitted)
    {
      TiedAt(t);
      hide Tied, Links;
      if t.next != null {
        SetPrev(t.next, t.prev);
      } else {
        last := t.prev;
      }
      if t.prev != null {
        SetNext(t.prev, t.next);
      } else {
        first := t.next;
      }
    }

    /** The writes of a reap, lines 472-486. */
    method WriteUnlink(t: Transfer)
      requires Closed() && Known(t) && t.next != t && t.prev != t
      modifies this, all
      ensures list == Without(old(list), t.id) && tranCount == old(tranCount) - 1
      ensures Closed()
      ensures IdOf(first) == if old(t.prev) == null then old(IdOf(t.next)) else old(IdOf(first))
      ensures IdOf(last) == if old(t.next) == null then old(IdOf(t.prev)) else old(IdOf(last))
      ensures TypedLink(old(Links())[t.id], |all|) && Links() == UnlinkPointers(old(Links()), t.id)
      ensures forall i :: 0 <= i < |all| ==> all[i].submitted == (i != t.id && old(all[i].submitted))
    {
      hide Without, BypassPointers, Links;
      Bypass(t);
      SetBoth(t, null, null);
      tranCount := tranCount - 1;
      SetSubmitted(t, false);
      list := Without(list, t.id);
    }

    /** usbyb_reap_transfer: the transfer leaves the list, wherever it is. */
    method Unlink(t: Transfer)
      requires Valid() && Known(t) && t.id in list
      modifies this, all
      ensures Valid() && list == Without(old(list), t.id)
      ensures TypedLink(old(Links())[t.id], |all|) && Links() == UnlinkPointers(old(Links()), t.id)
    {
      hide LinksOk, UnlinkPointers;
      NoSelfLinks(t);
      UnlinkLinksOk(Links(), list, tranCount, IdOf(first), IdOf(last), t.id);
      DistinctWithout(list, t.id);
      WriteUnlink(t);
    }

    lemma LastListed()
      requires Valid()
      ensures last == null || last.id in list
    {
    }

    lemma NoSelfLinks(t: Transfer)
      requires Valid() && Known(t) && t.id in list
      ensures t.next != t && t.prev != t && Distinct(list)
      ensures TypedLink(Links()[t.id], |all|)
    {
      var link, k := Links(), IndexOf(list, t.id);
      if k + 1 < |list| {
        assert link[list[k]].next == Some(list[k + 1]);
      }
      if k > 0 {
        assert link[list[k]].prev == Some(list[k - 1]);
      }
    }

    // ---------------------------------------------------------------- the reaper's two walks

    /** The walk has come to the i-th transfer of the list, or to its end. */
    ghost predicate OnList(cur: Transfer?, i: nat)
      reads this`list
    {
      if i < |list| then list[i] < |all| && cur == all[list[i]] && cur.id == list[i] else cur == null
    }

    lemma Ends()
      requires Valid()
      ensures tranCount == |list| && OnList(first, 0)
    {
    }

    lemma NextOnList(cur: Transfer, i: nat)
      requires Valid() && OnList(cur, i)
      ensures i < |list| && OnList(cur.next, i + 1)
    {
      assert Links()[list[i]].next == if i + 1 < |list| then Some(list[i + 1]) else None;
    }

    /** Lines 578-586: slot k + 2 gets the event of the k-th transfer in flight, and no slot lies beyond the array. */
    method FillSlots(slots: array<Handle>, target: Handle) returns (count: nat)
      requires Valid() && !target.OverlappedEvent? && 2 + tranCount <= slots.Length
      modifies slots
      ensures count == 2 + |list| <= slots.Length && slots[0] == target && slots[1] == ListUpdated
      ensures forall k :: 0 <= k < |list| ==> slots[2 + k] == OverlappedEvent(list[k])
    {
      hide LinksOk, Closed, FlagsAgree;
      Ends();
      slots[0] := target;
      slots[1] := ListUpdated;
      count := 2;
      var cur, i := first, 0;
      while i < tranCount && cur != null
        invariant 0 <= i <= |list| && count == 2 + i
        invariant Valid() && OnList(cur, i)
        invariant slots[0] == target && slots[1] == ListUpdated
        invariant forall k :: 0 <= k < i ==> slots[2 + k] == OverlappedEvent(list[k])
        decreases tranCount - i
      {
        NextOnList(cur, i);
        if OverlappedEvent(cur.id) != target {
          slots[count] := OverlappedEvent(cur.id);
          count := count + 1;
        }
        i, cur := i + 1, cur.next;
      }
    }

    /**
     Lines 570-586: the array holds what the protocol's snapshot holds. A denied reallocation is not noticed, and
     the old array is filled: `inside` says that all stores were inside it. They are not exactly if a larger array is
     denied that is needed.
     */
    method Snapshot(handles: Handles, target: Handle, granted: bool) returns (inside: bool, count: nat)
      requires Valid() && handles.Valid() && !target.OverlappedEvent?
      modifies handles, handles.slots
      ensures handles.Valid()
      ensures inside <==> granted || 2 + tranCount <= old(handles.capacity)
      ensures inside ==>
                && count <= handles.capacity
                && handles.slots[..count] ==
                   [target, ListUpdated] + WalkHandles(Links(), IdOf(first), tranCount, target)
    {
      hide Valid, WalkHandles, LinksOk, FlagsAgree, Closed;
      ListWalk(target);
      var reserved := handles.Reserve(2 + tranCount, granted);
      if handles.capacity < 2 + tranCount {
        return false, 0;
      }
      count := FillSlots(handles.slots, target);
      inside := true;
    }

    lemma ListWalk(target: Handle)
      requires Valid() && !target.OverlappedEvent?
      ensures tranCount == |list|
      ensures var w := WalkHandles(Links(), IdOf(first), tranCount, target);
              |w| == |list| && forall k :: 0 <= k < |w| ==> w[k] == OverlappedEvent(list[k])
    {
      WalkHandlesList(Links(), list, 0, target);
    }

    /** The search for the transfer whose event fired, lines 602-610, while nobody changes the list. */
    method Find(h: Handle) returns (t: Transfer?)
      requires Valid()
      ensures t == if h.OverlappedEvent? && h.x in list then all[h.x] else null
    {
      hide LinksOk, Closed, FlagsAgree;
      Ends();
      var cur, i := first, 0;
      while i < tranCount && cur != null
        invariant 0 <= i <= |list| && OnList(cur, i)
        invariant h.OverlappedEvent? ==> h.x !in list[..i]
        decreases tranCount - i
      {
        NextOnList(cur, i);
        if OverlappedEvent(cur.id) == h {
          return cur;
        }
        assert list[..i + 1] == list[..i] + [list[i]];
        i, cur := i + 1, cur.next;
      }
      assert list[..i] == list;
      return null;
    }
  }
}
