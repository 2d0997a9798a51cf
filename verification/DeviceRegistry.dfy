/**
 The devices of a context and the references to them (src/libusby.c:191-326, src/os/libusb0_win32.c:190-266).
 `refs` is everywhere the multiset of references held outside the context: entries of device lists that
 have not been freed, open handles, and references the callers took themselves.
 */
module DeviceRegistry {
  import opened Options
  import opened Sequences
  import opened DeviceNodes

  /** libusby_device_handle. */
  datatype Handle = Handle(dev: Device)

  /** No two of the devices have the same number. */
  ghost predicate Keyed(devs: seq<Device>) {
    forall i, j :: 0 <= i < j < |devs| ==> devs[i].devno != devs[j].devno
  }

  /** Every device there ever was is linked, or has been finalised once and is not linked any more. */
  ghost predicate Retired(devs: seq<Device>, finalised: seq<Device>, created: set<Device>) {
    && Distinct(finalised) && (forall d :: d in finalised ==> d !in devs)
    && (forall d :: d in created ==> d in devs || d in finalised)
    && (forall d :: d in devs ==> d in created) && (forall d :: d in finalised ==> d in created)
  }

  /** Both are kept when a device leaves the list. */
  lemma Leaves(devs: seq<Device>, finalised: seq<Device>, created: set<Device>, d: Device)
    requires Distinct(devs) && Keyed(devs) && Retired(devs, finalised, created) && d in devs
    ensures Keyed(Without(devs, d)) && Retired(Without(devs, d), finalised + [d], created)
    ensures forall x :: x in Without(devs, d) <==> x in devs && x != d
  {
    DistinctWithout(devs, d);
    var k, rest := IndexOf(devs, d), Without(devs, d);
    forall i, j | 0 <= i < j < |rest|
      ensures rest[i].devno != rest[j].devno
    {
      assert rest[i] == devs[if i < k then i else i + 1] && rest[j] == devs[if j < k then j else j + 1];
    }
  }

  /** With the head before it. */
  lemma RemovedAfterHead(head: Device, devs: seq<Device>, i: nat)
    requires i < |devs|
    ensures ([head] + devs)[i + 1] == devs[i]
    ensures Removed([head] + devs, i + 1) == [head] + (devs[..i] + devs[i + 1..])
  {
    var ns := [head] + devs;
    assert ns[..i + 1] == [head] + devs[..i];
    assert ns[i + 2..] == devs[i + 1..];
  }

  class Context {
    const head: Device
    ghost var devs: seq<Device>      // the linked devices, oldest first
    ghost var finalised: seq<Device> // the devices that have been finalised and freed, in that order
    ghost var created: set<Device>   // all the devices there ever were

    /** The circular list is made of the head and the devices. */
    ghost predicate Linked()
      reads this, head, devs
    {
      Ring([head] + devs)
    }

    /** Every count is the number of references, and exactly the devices with references are linked. */
    ghost predicate Counted(refs: multiset<Device>)
      reads this, devs
    {
      && (forall d :: d in devs ==> d.refCount == refs[d] && refs[d] > 0)
      && (forall d :: d in refs ==> d in devs)
    }

    ghost predicate Sound(refs: multiset<Device>)
      reads this, head, devs
    {
      Linked() && Counted(refs) && Keyed(devs) && Retired(devs, finalised, created)
    }

    ghost function Nodes(): set<Device>
      reads this
    {
      {head} + set d | d in devs
    }

    constructor ()
      ensures Sound(multiset{}) && devs == [] && finalised == [] && created == {} && fresh(head)
    {
      head := new Device(0);
      devs, finalised, created := [], [], {};
      new;
      InitHead(head);
      assert [head] + devs == [head];
    }

    lemma Neighbours(d: Device)
      requires Linked() && d in devs
      ensures d.next != null && d.prev != null && d.next in Nodes() && d.prev in Nodes()
    {
      var i := IndexOf(devs, d) + 1;
      assert ([head] + devs)[i] == d;
    }

    // -------------------------------------------------------------- references

    /** libusby_ref_device. */
    method RefDevice(d: Device, ghost refs: multiset<Device>)
      requires Sound(refs) && d in devs
      modifies d`refCount
      ensures Sound(refs + multiset{d})
    {
      d.refCount := d.refCount + 1;
    }

    lemma DevicesDistinct()
      requires Linked()
      ensures Distinct(devs) && head !in devs
    {
      var ns := [head] + devs;
      assert forall i :: 0 <= i < |devs| ==> devs[i] == ns[i + 1];
      assert ns[0] == head;
    }

    /** usbyb_finalize_device: the device is taken out of the list. */
    method FinalizeDevice(d: Device)
      requires Linked() && Keyed(devs) && Retired(devs, finalised, created) && d in devs
      modifies this`devs, this`finalised, Nodes()`next, Nodes()`prev
      ensures Linked() && Keyed(devs) && Retired(devs, finalised, created)
      ensures devs == Without(old(devs), d) && forall x :: x in devs <==> x in old(devs) && x != d
      ensures finalised == old(finalised) + [d]
    {
      Neighbours(d);
      DevicesDistinct();
      Leaves(devs, finalised, created, d);
      RemovedAfterHead(head, devs, IndexOf(devs, d));
      hide Ring, Without, Distinct, Keyed, Retired, Removed;
      ghost var rest := Without(devs, d);
      var next := Remove(d, [head] + devs, IndexOf(devs, d) + 1);
      devs, finalised := rest, finalised + [d];
    }

    /** libusby_unref_device: the last reference finalises the device. */
    method UnrefDevice(d: Device, ghost refs: multiset<Device>)
      requires Sound(refs) && d in refs
      modifies this`devs, this`finalised, d`refCount, Nodes()`next, Nodes()`prev
      ensures Sound(refs - multiset{d})
      ensures if refs[d] > 1 then devs == old(devs) && finalised == old(finalised)
              else devs == Without(old(devs), d) && finalised == old(finalised) + [d]
      ensures forall x :: x in devs ==> x in old(devs)
    {
      d.refCount := d.refCount - 1;
      assert Linked();
      hide Linked, Keyed, Retired;
      if d.refCount == 0 {
        FinalizeDevice(d);
      }
    }

    /** The reference that a list entry or a handle was to have is given back. */
    method GiveBack(d: Device, ghost refs: multiset<Device>)
      requires Sound(refs + multiset{d})
      modifies this`devs, this`finalised, d`refCount, Nodes()`next, Nodes()`prev
      ensures Sound(refs) && old(finalised) <= finalised
      ensures forall x :: x in devs ==> x in old(devs)
      ensures if d in refs then devs == old(devs) else d !in devs
    {
      hide Sound;
      assert d in refs + multiset{d};
      UnrefDevice(d, refs + multiset{d});
      assert refs + multiset{d} - multiset{d} == refs;
      Linkedness(d, refs);
    }

    lemma Linkedness(d: Device, refs: multiset<Device>)
      requires Sound(refs)
      ensures d in devs <==> d in refs
    {
    }

    method SetDescriptor(d: Device, raw: Descriptor, ghost refs: multiset<Device>)
      requires Sound(refs)
      modifies d`desc
      ensures Sound(refs) && d.desc == raw
    {
      d.desc := raw;
    }

    /** usbyi_sanitize_device_desc: only a descriptor of the right length is kept. */
    method SanitizeDescriptor(d: Device, raw: Descriptor, ghost refs: multiset<Device>) returns (ok: bool)
      requires Sound(refs)
      modifies d`desc
      ensures Sound(refs)
      ensures ok <==> raw[0] == 18
      ensures d.desc == if ok then raw else old(d.desc)
    {
      ok := raw[0] == 18;
      if ok {
        SetDescriptor(d, raw, refs);
      }
    }

    /** The search of lines 207-219 (libusb0_win32.c) through the circular list. */
    method FindDevice(devno: int) returns (found: Option<Device>)
      requires Linked()
      ensures found.Some? ==> found.value in devs && found.value.devno == devno
      ensures found.None? ==> forall d :: d in devs ==> d.devno != devno
    {
      ghost var ns := [head] + devs;
      ghost var i := 1;
      var devnode := head.next;
      assert devnode == ns[Succ(0, |ns|)];
      while devnode != head
        invariant 1 <= i <= |ns| && devnode == (if i == |ns| then head else ns[i])
        invariant forall k :: 1 <= k < i ==> ns[k].devno != devno
        decreases |ns| - i
      {
        if devnode.devno == devno {
          return Some(devnode);
        }
        assert ns[i].next == ns[Succ(i, |ns|)];
        devnode := devnode.next;
        i := i + 1;
      }
      assert i == |ns|;
      forall d | d in devs ensures d.devno != devno {
        assert ns[IndexOf(devs, d) + 1] == d;
      }
      return None;
    }

    /** Line 230 (libusb0_win32.c): before the head, which is at the end. */
    method LinkDevice(d: Device)
      requires Linked() && d !in devs && d != head
      modifies this`devs, Nodes()`next, Nodes()`prev, d`next, d`prev
      ensures Linked() && devs == old(devs) + [d]
    {
      ghost var ns := [head] + devs;
      assert ns[0] == head && d !in ns;
      Ends();
      InsertBefore(d, head, ns, 0);
      assert [head] + (devs + [d]) == Inserted(ns, 0, d);
      hide Ring;
      devs := devs + [d];
    }

    /** The last node is before the head. */
    lemma Ends()
      requires Linked()
      ensures head.prev != null && head.prev in Nodes() && head.next != null && head.next in Nodes()
    {
      var ns := [head] + devs;
      assert ns[0] == head && forall i :: 0 <= i < |devs| ==> ns[i + 1] == devs[i];
    }

    /** Lines 224-230 (libusb0_win32.c): a new device, linked at the end, with one reference. */
    method AddDevice(devno: int, ghost refs: multiset<Device>) returns (d: Device)
      requires Sound(refs) && forall x :: x in devs ==> x.devno != devno
      modifies this`devs, this`created, Nodes()`next, Nodes()`prev
      ensures fresh(d) && d.devno == devno && Sound(refs + multiset{d}) && devs == old(devs) + [d]
      ensures finalised == old(finalised) && created == old(created) + {d}
    {
      d := new Device(devno);
      assert d !in refs;
      Joins(devs, finalised, created, d);
      assert Linked();
      hide Linked, Keyed, Retired, Distinct;
      LinkDevice(d);
      created := created + {d};
    }
  }

  lemma Joins(devs: seq<Device>, finalised: seq<Device>, created: set<Device>, d: Device)
    requires Keyed(devs) && Retired(devs, finalised, created) && d !in finalised
    requires forall x :: x in devs ==> x.devno != d.devno
    ensures Keyed(devs + [d]) && Retired(devs + [d], finalised, created + {d})
  {
  }
}
