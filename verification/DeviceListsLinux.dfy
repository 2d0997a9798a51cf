/**
 Listing the devices on Linux (src/os/linux_usbfs.c:286-433): devices whose descriptors cannot be read are
 left out, and an allocation denied for a new device ends the list without an error.
 */
module DeviceListsLinux {
  import opened Options
  import opened Sequences
  import opened DeviceNodes
  import opened DeviceArray
  import opened DeviceRegistry
  import opened DeviceLists
  import opened DescriptorCache

  /**
   A device file that could be opened: the number standing for its bus and device number, what becomes of
   the cache of a new device, its descriptor, and whether the list may grow.
   */
  datatype Entry = Entry(key: int, outcome: Outcome, desc: Descriptor, granted: bool)

  datatype Turn = Listed | Skipped | CutShort | Denied

  ghost predicate OncePerScan(entries: seq<Entry>) {
    forall i, j :: 0 <= i < j < |entries| ==> entries[i].key != entries[j].key
  }

  /** The devices that belong on the list: linked before, or with a complete cache. */
  function Keys(entries: seq<Entry>, known: set<int>): seq<int> {
    if entries == [] then []
    else
      var e := entries[|entries| - 1];
      Keys(entries[..|entries| - 1], known) + if e.key in known || e.outcome.Kept? then [e.key] else []
  }

  /** The entry ends the list: memory is denied for a new device, for its cache or for the array that has to grow. */
  predicate Stops(entries: seq<Entry>, known: set<int>, k: nat)
    requires k < |entries|
  {
    var e := entries[k];
    && e.key !in known
    && (e.outcome.NoMem? || (e.outcome.Kept? && !e.granted && Grows(|Keys(entries[..k], known)|)))
  }

  /** The entry makes the enumeration fail: the array has to grow, and cannot, for a device that was linked before. */
  predicate Fails(entries: seq<Entry>, known: set<int>, k: nat)
    requires k < |entries|
  {
    entries[k].key in known && !entries[k].granted && Grows(|Keys(entries[..k], known)|)
  }

  /** None of the first n entries ends the enumeration. */
  predicate GoesOn(entries: seq<Entry>, known: set<int>, n: nat)
    requires n <= |entries|
  {
    forall k :: 0 <= k < n ==> !Stops(entries, known, k) && !Fails(entries, known, k)
  }

  /** A new device without memory for its cache hides the one after it, and the list of none is a success. */
  lemma DeniedDeviceHidesTheNext(desc: Descriptor)
    ensures var entries := [Entry(1, NoMem, desc, true), Entry(2, Kept, desc, true)];
            && Stops(entries, {}, 0) && Keys(entries[..0], {}) == []
            && GoesOn(entries[1..], {}, 1) && Keys(entries[1..], {}) == [2]
  {
    var entries := [Entry(1, NoMem, desc, true), Entry(2, Kept, desc, true)];
    assert entries[1..] == [Entry(2, Kept, desc, true)] && entries[1..][..0] == [];
  }

  lemma {:induction false} KeysFromEntries(entries: seq<Entry>, known: set<int>, key: int)
    requires key in Keys(entries, known)
    ensures exists e :: e in entries && e.key == key
  {
    var n := |entries| - 1;
    if key in Keys(entries[..n], known) {
      KeysFromEntries(entries[..n], known, key);
    } else {
      assert entries[n] in entries;
    }
  }

  /** Lines 341-408 for a device that was not linked yet. */
  method VisitNew(ctx: Context, e: Entry, devlist: DeviceList<Device>, ghost refs: multiset<Device>)
    returns (turn: Turn, ghost d: Device)
    requires ctx.Sound(refs) && devlist.Valid() && forall x :: x in ctx.devs ==> x.devno != e.key
    modifies ctx`devs, ctx`created, ctx`finalised, ctx.Nodes()`refCount, ctx.Nodes()`next, ctx.Nodes()`prev
    modifies devlist, devlist.list
    ensures devlist.Valid() && (devlist.list == old(devlist.list) || fresh(devlist.list))
    ensures forall x :: x in ctx.devs ==>
              x in old(ctx.devs) || (fresh(x) && x.devno == e.key && x.desc == e.desc)
    ensures devlist.Contents() == if turn.Listed? then old(devlist.Contents()) + [d] else old(devlist.Contents())
    ensures ctx.Sound(if turn.Listed? then refs + multiset{d} else refs) && d.devno == e.key
    ensures turn == if e.outcome.Dropped? then Skipped
                    else if e.outcome.Kept? && (e.granted || !Grows(|old(devlist.Contents())|)) then Listed
                    else CutShort
    ensures turn.Listed? ==> fresh(d) && d.desc == e.desc
    ensures old(ctx.finalised) <= ctx.finalised
  {
    hide Context.Sound, DeviceList.Valid, Grows;
    var dev := ctx.AddDevice(e.key, refs);
    d := dev;
    match e.outcome {
      case Dropped =>
        turn := Skipped;
      case NoMem =>
        turn := CutShort;
      case Kept =>
        ctx.SetDescriptor(dev, e.desc, refs + multiset{d});
        var ok := devlist.Append(dev, e.granted);
        turn := if ok then Listed else CutShort;
    }
    if !turn.Listed? {
      ctx.GiveBack(dev, refs);
    }
  }

  /** One turn of the inner loop. */
  method Visit(ctx: Context, e: Entry, devlist: DeviceList<Device>, ghost refs: multiset<Device>)
    returns (turn: Turn, ghost d: Device, ghost known: bool)
    requires ctx.Sound(refs) && devlist.Valid()
    modifies ctx`devs, ctx`created, ctx`finalised, ctx.Nodes()`refCount, ctx.Nodes()`next, ctx.Nodes()`prev
    modifies devlist, devlist.list
    ensures devlist.Valid() && (devlist.list == old(devlist.list) || fresh(devlist.list))
    ensures forall x :: x in ctx.devs ==>
              x in old(ctx.devs) || (fresh(x) && x.devno == e.key && x.desc == e.desc)
    ensures devlist.Contents() == if turn.Listed? then old(devlist.Contents()) + [d] else old(devlist.Contents())
    ensures ctx.Sound(if turn.Listed? then refs + multiset{d} else refs) && d.devno == e.key
    ensures known <==> exists x :: x in old(ctx.devs) && x.devno == e.key
    ensures turn == if known then if e.granted || !Grows(|old(devlist.Contents())|) then Listed else Denied
                    else if e.outcome.Dropped? then Skipped
                    else if e.outcome.Kept? && (e.granted || !Grows(|old(devlist.Contents())|)) then Listed
                    else CutShort
    ensures turn.Listed? ==> if known then d in old(ctx.devs) else fresh(d) && d.desc == e.desc
    ensures old(ctx.finalised) <= ctx.finalised
  {
    var found := ctx.FindDevice(e.key);
    hide Context.Sound, DeviceList.Valid, Grows;
    known := found.Some?;
    if found.Some? {
      d := found.value;
      var ok := devlist.Append(found.value, e.granted);
      if !ok {
        return Denied, d, known;
      }
      ctx.RefDevice(found.value, refs);
      turn := Listed;
    } else {
      turn, d := VisitNew(ctx, e, devlist, refs);
    }
  }

  /** A device with the number of the next entry is linked exactly if one was before the enumeration. */
  lemma Linkage(ctx: Context, before: seq<Device>, refs: multiset<Device>, devs: seq<Device>, entries: seq<Entry>,
                i: nat)
    requires ctx.Sound(refs + multiset(devs)) && Referred(before, refs)
    requires i < |entries| && OncePerScan(entries) && HaveNumbers(devs, Keys(entries[..i], KnownKeys(before)))
    ensures (exists x :: x in ctx.devs && x.devno == entries[i].key) <==> entries[i].key in KnownKeys(before)
  {
    var known := KnownKeys(before);
    forall x | x in devs ensures x.devno != entries[i].key {
      var k := IndexOf(devs, x);
      KeysFromEntries(entries[..i], known, Keys(entries[..i], known)[k]);
    }
    Members(ctx, refs + multiset(devs));
  }

  lemma KeysStep(devs: seq<Device>, devs': seq<Device>, entries: seq<Entry>, i: nat, known: set<int>)
    requires i < |entries| && HaveNumbers(devs, Keys(entries[..i], known))
    requires if entries[i].key in known || entries[i].outcome.Kept?
             then exists d: Device :: d.devno == entries[i].key && devs' == devs + [d] else devs' == devs
    ensures HaveNumbers(devs', Keys(entries[..i + 1], known))
  {
    assert entries[..i + 1][..i] == entries[..i];
  }

  /** The devices that were not linked before have the numbers and descriptors of entries. */
  ghost predicate NewDescribed(ctx: Context, entries: seq<Entry>, before: seq<Device>)
    reads ctx, ctx.devs
  {
    forall x :: x in ctx.devs ==> x in before || exists e :: e in entries && e.key == x.devno && e.desc == x.desc
  }

  lemma EndStep(entries: seq<Entry>, known: set<int>, i: nat)
    requires i < |entries|
    ensures GoesOn(entries, known, i + 1) <==>
            GoesOn(entries, known, i) && !Stops(entries, known, i) && !Fails(entries, known, i)
  {
  }

  /** One turn, seen from the whole enumeration. */
  method Next(ctx: Context, entries: seq<Entry>, i: nat, devlist: DeviceList<Device>,
              ghost before: seq<Device>, ghost devs: seq<Device>, ghost refs: multiset<Device>)
    returns (turn: Turn, ghost devs': seq<Device>)
    requires ctx.Sound(refs + multiset(devs)) && devlist.Valid() && devlist.Contents() == devs && i < |entries|
    requires Referred(before, refs) && OncePerScan(entries) && HaveNumbers(devs, Keys(entries[..i], KnownKeys(before)))
    modifies ctx`devs, ctx`created, ctx`finalised, ctx.Nodes()`refCount, ctx.Nodes()`next, ctx.Nodes()`prev
    modifies devlist, devlist.list
    ensures devlist.Valid() && (devlist.list == old(devlist.list) || fresh(devlist.list))
    ensures forall x :: x in ctx.devs ==>
              x in old(ctx.devs) || (fresh(x) && x.devno == entries[i].key && x.desc == entries[i].desc)
    ensures ctx.Sound(refs + multiset(devs')) && devlist.Contents() == devs'
    ensures turn.CutShort? <==> Stops(entries, KnownKeys(before), i)
    ensures turn.Denied? <==> Fails(entries, KnownKeys(before), i)
    ensures turn.Listed? || turn.Skipped? ==> HaveNumbers(devs', Keys(entries[..i + 1], KnownKeys(before)))
    ensures turn.Listed? <==> devs' != devs
    ensures turn.Listed? ==>
              && |devs'| == |devs| + 1 && devs'[..|devs|] == devs && devs'[|devs|].devno == entries[i].key
              && var d := devs'[|devs|];
                 if entries[i].key in KnownKeys(before) then d in old(ctx.devs)
                 else fresh(d) && d.desc == entries[i].desc && entries[i].outcome.Kept?
    ensures old(ctx.finalised) <= ctx.finalised
  {
    hide Context.Sound, DeviceList.Valid, Keys, Grows, KnownKeys, Referred, OncePerScan;
    Linkage(ctx, before, refs, devs, entries, i);
    ghost var d, linked;
    turn, d, linked := Visit(ctx, entries[i], devlist, refs + multiset(devs));
    devs' := devs;
    if turn.Listed? {
      MoreEntries(refs, devs, d);
      devs' := devs + [d];
    }
    if turn.Listed? || turn.Skipped? {
      KeysStep(devs, devs', entries, i, KnownKeys(before));
    }
  }

  /** The loops, up to the first entry that ends them. */
  method Scan(ctx: Context, entries: seq<Entry>, devlist: DeviceList<Device>, ghost refs: multiset<Device>)
    returns (turn: Turn, i: nat, ghost devs: seq<Device>)
    requires ctx.Sound(refs) && OncePerScan(entries) && devlist.Valid() && devlist.Contents() == []
    modifies ctx`devs, ctx`created, ctx`finalised, ctx.Nodes()`refCount, ctx.Nodes()`next, ctx.Nodes()`prev
    modifies devlist, devlist.list
    ensures old(ctx.finalised) <= ctx.finalised && forall x :: x in ctx.devs ==> x in old(ctx.devs) || fresh(x)
    ensures devlist.Valid() && devlist.Contents() == devs && (devlist.list == old(devlist.list) || fresh(devlist.list))
    ensures NewDescribed(ctx, entries, old(ctx.devs))
    ensures ctx.Sound(refs + multiset(devs)) && i <= |entries|
    ensures HaveNumbers(devs, Keys(entries[..i], KnownKeys(old(ctx.devs))))
    ensures GoesOn(entries, KnownKeys(old(ctx.devs)), i)
    ensures turn.CutShort? <==> i < |entries| && Stops(entries, KnownKeys(old(ctx.devs)), i)
    ensures turn.Denied? <==> i < |entries| && Fails(entries, KnownKeys(old(ctx.devs)), i)
    ensures i < |entries| <==> turn.CutShort? || turn.Denied?
  {
    hide Context.Sound, DeviceList.Valid, OncePerScan, Keys, KnownKeys, Referred, HaveNumbers, GoesOn, Stops, Fails;
    ghost var before := ctx.devs;
    i, turn, devs := 0, Listed, [];
    assert refs + multiset(devs) == refs;
    Start(ctx, entries, refs);
    while i < |entries|
      invariant i <= |entries| && (turn.Listed? || turn.Skipped?)
      invariant old(ctx.finalised) <= ctx.finalised && forall x :: x in ctx.devs ==> x in old(ctx.devs) || fresh(x)
      invariant devlist.Valid() && devlist.Contents() == devs
      invariant (devlist.list == old(devlist.list) || fresh(devlist.list))
      invariant ctx.Sound(refs + multiset(devs)) && NewDescribed(ctx, entries, before)
      invariant HaveNumbers(devs, Keys(entries[..i], KnownKeys(before))) && GoesOn(entries, KnownKeys(before), i)
    {
      turn, devs := Next(ctx, entries, i, devlist, before, devs, refs);
      if turn.CutShort? || turn.Denied? {
        break;
      }
      EndStep(entries, KnownKeys(before), i);
      i := i + 1;
    }
  }

  lemma Start(ctx: Context, entries: seq<Entry>, refs: multiset<Device>)
    requires ctx.Sound(refs)
    ensures Referred(ctx.devs, refs) && HaveNumbers([], Keys(entries[..0], KnownKeys(ctx.devs)))
    ensures GoesOn(entries, KnownKeys(ctx.devs), 0) && NewDescribed(ctx, entries, ctx.devs)
  {
    assert entries[..0] == [];
  }

  /**
   usbyb_get_device_list on Linux. The enumeration ends with the first entry that stops it or makes it fail, and
   with all entries if and only if there is none. A list that is stopped reports success all the same; a failure gives
   back all references that were taken.
   */
  method ListDevices(ctx: Context, entries: seq<Entry>, ghost refs: multiset<Device>)
    returns (ok: bool, list: array<Option<Device>>, count: nat, ghost devs: seq<Device>, ghost done: nat)
    requires ctx.Sound(refs) && OncePerScan(entries)
    modifies ctx`devs, ctx`created, ctx`finalised, ctx.Nodes()`refCount, ctx.Nodes()`next, ctx.Nodes()`prev
    ensures done <= |entries| && GoesOn(entries, KnownKeys(old(ctx.devs)), done)
    ensures !ok <==> done < |entries| && Fails(entries, KnownKeys(old(ctx.devs)), done)
    ensures ok && done < |entries| <==> done < |entries| && Stops(entries, KnownKeys(old(ctx.devs)), done)
    ensures done < |entries| <==> !GoesOn(entries, KnownKeys(old(ctx.devs)), |entries|)
    ensures ok ==> ctx.Sound(refs + multiset(devs)) && Terminated(list, devs) && fresh(list) && count == |devs|
    ensures ok ==> HaveNumbers(devs, Keys(entries[..done], KnownKeys(old(ctx.devs))))
    ensures !ok ==> ctx.Sound(refs)
    ensures NewDescribed(ctx, entries, old(ctx.devs))
    ensures old(ctx.finalised) <= ctx.finalised && forall x :: x in ctx.devs ==> x in old(ctx.devs) || fresh(x)
  {
    hide Context.Sound, DeviceList.Valid, OncePerScan, Keys, KnownKeys, Terminated, Stops, Fails, HaveNumbers;
    var devlist := new DeviceList<Device>();
    var turn, i;
    turn, i, devs := Scan(ctx, entries, devlist, refs);
    ListTerminated(devlist);
    ok, list, count, done := !turn.Denied?, devlist.list, devlist.count, i;
    if turn.Denied? {
      FreeDeviceList(ctx, devlist.list, true, devs, refs);
    }
  }
}
