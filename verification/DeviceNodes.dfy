/**
 Devices and the circular list they are linked in through their own fields (src/libusby.c:8-28). The list
 head is a device of which only the links are used.
 */
module DeviceNodes {
  import opened Sequences
  import opened ConfigGrammar

  /** The bytes of a device descriptor, USB 2.0 section 9.6.1. */
  type Descriptor = d: seq<byte> | |d| == 18 witness seq(18, _ => 0)

  class Device {
    const devno: int
    var prev: Device?
    var next: Device?
    var refCount: int
    var desc: Descriptor // the cached device descriptor

    /** usbyi_alloc_device: all zero, and one reference for the caller. */
    constructor (devno: int)
      ensures this.devno == devno && refCount == 1 && prev == null && next == null
      ensures desc[0] == 0
    {
      this.devno := devno;
      prev, next, refCount, desc := null, null, 1, seq(18, _ => 0);
    }
  }

  function Succ(i: nat, n: nat): nat
    requires i < n
  {
    if i + 1 == n then 0 else i + 1
  }

  /** Where the node before position i of the ring is. */
  function Pred(i: nat, n: nat): (k: nat)
    requires i < n
    ensures k < n && Succ(k, n) == i
  {
    if i == 0 then n - 1 else i - 1
  }

  /** The nodes are linked in a circle, forwards and backwards. */
  ghost predicate Ring(ns: seq<Device>)
    reads ns
  {
    && |ns| > 0 && Distinct(ns)
    && forall i :: 0 <= i < |ns| ==> ns[i].next == ns[Succ(i, |ns|)] && ns[i].prev == ns[Pred(i, |ns|)]
  }

  /** usbyi_init_devlist_head. */
  method InitHead(head: Device)
    modifies head`next, head`prev
    ensures Ring([head])
  {
    head.next := head;
    head.prev := head;
  }

  /** A new node before node i; before the head is at the end. */
  function Inserted(ns: seq<Device>, i: nat, node: Device): (r: seq<Device>)
    requires i < |ns|
  {
    if i == 0 then ns + [node] else ns[..i] + [node] + ns[i..]
  }

  function Removed(ns: seq<Device>, i: nat): seq<Device>
    requires i < |ns|
  {
    ns[..i] + ns[i + 1..]
  }

  /** The successors in the ring with one more node. */
  lemma SuccInserted(ns: seq<Device>, i: nat, node: Device, k: nat)
    requires i < |ns| && k <= |ns|
    ensures var at, ms, n := (if i == 0 then |ns| else i), Inserted(ns, i, node), |ns|;
            && ms[at] == node && ms[Succ(at, n + 1)] == ns[i] && ms[Pred(at, n + 1)] == ns[Pred(i, n)]
            && (k != at ==> var j := if k < at then k else k - 1;
                  && ms[k] == ns[j]
                  && ms[Succ(k, n + 1)] == (if j == Pred(i, n) then node else ns[Succ(j, n)])
                  && ms[Pred(k, n + 1)] == (if j == i then node else ns[Pred(j, n)]))
  {
    var at, ms, n := (if i == 0 then |ns| else i), Inserted(ns, i, node), |ns|;
    assert forall t :: 0 <= t <= n && t != at ==> ms[t] == ns[if t < at then t else t - 1];
  }

  lemma DistinctInserted(ns: seq<Device>, i: nat, node: Device)
    requires Distinct(ns) && i < |ns| && node !in ns
    ensures Distinct(Inserted(ns, i, node))
  {
  }

  /** The links of the ring after the four writes that put a node before node i. */
  ghost predicate Opened(ns: seq<Device>, i: nat, node: Device)
    reads ns, node
    requires i < |ns|
  {
    && node.next == ns[i] && node.prev == ns[Pred(i, |ns|)]
    && forall k :: 0 <= k < |ns| ==>
         && ns[k].next == (if k == Pred(i, |ns|) then node else ns[Succ(k, |ns|)])
         && ns[k].prev == (if k == i then node else ns[Pred(k, |ns|)])
  }

  lemma OpenedIsRing(ns: seq<Device>, i: nat, node: Device)
    requires i < |ns| && Distinct(ns) && node !in ns && Opened(ns, i, node)
    ensures Ring(Inserted(ns, i, node))
  {
    DistinctInserted(ns, i, node);
    var ms := Inserted(ns, i, node);
    hide Distinct;
    forall k: nat | 0 <= k < |ms|
      ensures ms[k].next == ms[Succ(k, |ms|)] && ms[k].prev == ms[Pred(k, |ms|)]
    {
      SuccInserted(ns, i, node, k);
      hide Inserted, Pred, Succ;
    }
  }

  method InsertBefore(node: Device, next: Device, ghost ns: seq<Device>, ghost i: nat)
    requires Ring(ns) && i < |ns| && ns[i] == next && node !in ns
    modifies node`next, node`prev, next`prev, next.prev`next
    ensures Ring(Inserted(ns, i, node))
  {
    node.next := next;
    node.prev := next.prev;
    next.prev := node;
    node.prev.next := node;
    assert Opened(ns, i, node);
    OpenedIsRing(ns, i, node);
  }

  /** The links of the ring after the two writes that leave node i out. */
  ghost predicate Closed(ns: seq<Device>, i: nat)
    reads ns
    requires i < |ns|
  {
    forall k :: 0 <= k < |ns| && k != i ==>
      && ns[k].next == ns[if Succ(k, |ns|) == i then Succ(i, |ns|) else Succ(k, |ns|)]
      && ns[k].prev == ns[if Pred(k, |ns|) == i then Pred(i, |ns|) else Pred(k, |ns|)]
  }

  lemma SuccRemoved(ns: seq<Device>, i: nat, k: nat)
    requires i < |ns| && k < |ns| - 1
    ensures var ms, n, j := Removed(ns, i), |ns| - 1, (if k < i then k else k + 1);
            && ms[k] == ns[j]
            && ms[Succ(k, n)] == ns[if Succ(j, n + 1) == i then Succ(i, n + 1) else Succ(j, n + 1)]
            && ms[Pred(k, n)] == ns[if Pred(j, n + 1) == i then Pred(i, n + 1) else Pred(j, n + 1)]
  {
    var ms, n := Removed(ns, i), |ns| - 1;
    assert forall t :: 0 <= t < n ==> ms[t] == ns[if t < i then t else t + 1];
    var s, p := Succ(k, n), Pred(k, n);
    assert ms[s] == ns[if s < i then s else s + 1];
    assert ms[p] == ns[if p < i then p else p + 1];
  }

  lemma ClosedIsRing(ns: seq<Device>, i: nat)
    requires i < |ns| && |ns| > 1 && Distinct(ns) && Closed(ns, i)
    ensures Ring(Removed(ns, i))
  {
    var ms := Removed(ns, i);
    assert Distinct(ms);
    hide Distinct;
    forall k: nat | 0 <= k < |ms|
      ensures ms[k].next == ms[Succ(k, |ms|)] && ms[k].prev == ms[Pred(k, |ms|)]
    {
      SuccRemoved(ns, i, k);
      hide Removed, Pred, Succ;
    }
  }

  method Remove(node: Device, ghost ns: seq<Device>, ghost i: nat) returns (next: Device)
    requires Ring(ns) && i < |ns| && ns[i] == node && |ns| > 1
    modifies node.next`prev, node.prev`next
    ensures Ring(Removed(ns, i)) && next == ns[Succ(i, |ns|)]
  {
    next := node.next;
    node.next.prev := node.prev;
    node.prev.next := node.next;
    assert Closed(ns, i);
    ClosedIsRing(ns, i);
  }
}
