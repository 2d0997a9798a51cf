/** Listing the devices (src/os/libusb0_win32.c:190-255), and giving a list back (src/libusby.c:191-201). */
module DeviceLists {
  import opened Options
  import opened Sequences
  import opened DeviceNodes
  import opened DeviceArray
  import opened DeviceRegistry

  const MAX_NUMBER_OF_DEVICES := 256

  /** What the driver and the allocator answer during one enumeration. */
  datatype Surroundings = Surroundings(
    present: int -> bool,                // the device file with the number can be opened
    answers: int -> Option<Descriptor>,  // its device descriptor, if it comes back in full
    granted: int -> bool)                // a larger array for the list

  /** The numbers below n for which a device file can be opened. */
  function Numbers(env: Surroundings, n: nat): seq<int> {
    if n <= 1 then [] else Numbers(env, n - 1) + if env.present(n - 1) then [n - 1] else []
  }

  /** Each number comes once, and exactly the numbers with a device file come. */
  lemma {:induction false} NumbersListed(env: Surroundings, n: nat)
    ensures Distinct(Numbers(env, n)) && forall i :: i in Numbers(env, n) <==> 1 <= i < n && env.present(i)
  {
    if n > 1 {
      NumbersListed(env, n - 1);
    }
  }

  /** The whole enumeration comes to every present device with a number from 1 to 255, once each in order. */
  lemma AllPresentListed(env: Surroundings)
    ensures var ns := Numbers(env, MAX_NUMBER_OF_DEVICES);
            && (forall i :: i in ns <==> 1 <= i <= 255 && env.present(i))
            && forall j, k :: 0 <= j < k < |ns| ==> ns[j] < ns[k]
  {
    NumbersListed(env, MAX_NUMBER_OF_DEVICES);
    NumbersAscend(env, MAX_NUMBER_OF_DEVICES);
  }

  lemma {:induction false} NumbersAscend(env: Surroundings, n: nat)
    ensures forall k :: 0 <= k < |Numbers(env, n)| ==> Numbers(env, n)[k] < n
    ensures forall j, k :: 0 <= j < k < |Numbers(env, n)| ==> Numbers(env, n)[j] < Numbers(env, n)[k]
  {
    if n > 1 {
      NumbersAscend(env, n - 1);
    }
  }

  ghost predicate HaveNumbers(devs: seq<Device>, numbers: seq<int>) {
    |devs| == |numbers| && forall k :: 0 <= k < |devs| ==> devs[k].devno == numbers[k]
  }

  ghost function KnownKeys(devs: seq<Device>): set<int> {
    set d | d in devs :: d.devno
  }

  /** The device answers with a device descriptor. */
  predicate Answers(env: Surroundings, i: int) {
    env.answers(i).Some? && env.answers(i).value[0] == 18
  }

  /** Device i makes the enumeration fail: it is new and does not answer, or the array has to grow and cannot. */
  predicate Fails(env: Surroundings, known: set<int>, i: nat) {
    env.present(i) && ((i !in known && !Answers(env, i)) || (!env.granted(i) && Grows(|Numbers(env, i)|)))
  }

  predicate NoneFails(env: Surroundings, known: set<int>, n: nat) {
    forall i :: 1 <= i < n ==> !Fails(env, known, i)
  }

  /** An array with the devices and a terminator; no array at all when there are none. */
  ghost predicate Terminated(list: array<Option<Device>>, devs: seq<Device>)
    reads list
  {
    if list.Length == 0 then devs == []
    else |devs| < list.Length && list[|devs|] == None && forall k :: 0 <= k < |devs| ==> list[k] == Some(devs[k])
  }

  /** libusby_free_device_list: with `unref`, the reference of every entry is given back. */
  method FreeDeviceList(ctx: Context, list: array<Option<Device>>, unref: bool, ghost devs: seq<Device>,
                        ghost refs: multiset<Device>)
    requires Terminated(list, devs) && ctx.Sound(refs + multiset(devs))
    modifies ctx`devs, ctx`finalised, ctx.Nodes()`refCount, ctx.Nodes()`next, ctx.Nodes()`prev
    ensures ctx.Sound(if unref then refs else refs + multiset(devs))
    ensures forall x :: x in ctx.devs ==> x in old(ctx.devs)
    ensures old(ctx.finalised) <= ctx.finalised
  {
    if list.Length != 0 && unref {
      hide Context.Sound;
      var cur := 0;
      assert devs[0..] == devs;
      while list[cur].Some?
        invariant cur <= |devs| && ctx.Sound(refs + multiset(devs[cur..]))
        invariant old(ctx.finalised) <= ctx.finalised && forall x :: x in ctx.devs ==> x in old(ctx.devs)
        decreases |devs| - cur
      {
        Entry(refs, devs, cur);
        ctx.Linkedness(devs[cur], refs + multiset(devs[cur..]));
        ctx.UnrefDevice(list[cur].value, refs + multiset(devs[cur..]));
        cur := cur + 1;
      }
      assert refs + multiset(devs[cur..]) == refs;
    }
  }

  lemma Entry(refs: multiset<Device>, devs: seq<Device>, cur: nat)
    requires cur < |devs|
    ensures devs[cur] in refs + multiset(devs[cur..])
    ensures refs + multiset(devs[cur..]) - multiset{devs[cur]} == refs + multiset(devs[cur + 1..])
  {
    assert devs[cur..] == [devs[cur]] + devs[cur + 1..];
  }

  /** Lines 222-240: a device that was not linked yet. */
  method VisitNew(ctx: Context, i: int, env: Surroundings, devlist: DeviceList<Device>, ghost refs: multiset<Device>)
    returns (ok: bool, ghost d: Device)
    requires ctx.Sound(refs) && devlist.Valid() && env.present(i) && forall x :: x in ctx.devs ==> x.devno != i
    modifies ctx`devs, ctx`created, ctx`finalised, ctx.Nodes()`refCount, ctx.Nodes()`next, ctx.Nodes()`prev
    modifies devlist, devlist.list
    ensures devlist.Valid() && (devlist.list == old(devlist.list) || fresh(devlist.list))
    ensures forall x :: x in ctx.devs ==>
              x in old(ctx.devs) || (fresh(x) && x.devno == i && env.answers(i) == Some(x.desc))
    ensures devlist.Contents() == if ok then old(devlist.Contents()) + [d] else old(devlist.Contents())
    ensures ok ==> ctx.Sound(refs + multiset{d}) && d.devno == i
    ensures !ok ==> ctx.Sound(refs)
    ensures ok <==> Answers(env, i) && (env.granted(i) || !Grows(|old(devlist.Contents())|))
    ensures old(ctx.finalised) <= ctx.finalised
  {
    hide Context.Sound, DeviceList.Valid, Grows;
    var dev := ctx.AddDevice(i, refs);
    d := dev;
    ok := false;
    if env.answers(i).Some? {
      ok := ctx.SanitizeDescriptor(dev, env.answers(i).value, refs + multiset{d});
      if ok {
        ok := devlist.Append(dev, env.granted(i));
      }
    }
    if !ok {
      ctx.GiveBack(dev, refs);
    }
  }

  /** One turn of the loop for a number whose device file could be opened. */
  method Visit(ctx: Context, i: int, env: Surroundings, devlist: DeviceList<Device>, ghost refs: multiset<Device>)
    returns (ok: bool, ghost d: Device, ghost known: bool)
    requires ctx.Sound(refs) && devlist.Valid() && env.present(i)
    modifies ctx`devs, ctx`created, ctx`finalised, ctx.Nodes()`refCount, ctx.Nodes()`next, ctx.Nodes()`prev
    modifies devlist, devlist.list
    ensures devlist.Valid() && (devlist.list == old(devlist.list) || fresh(devlist.list))
    ensures forall x :: x in ctx.devs ==>
              x in old(ctx.devs) || (fresh(x) && x.devno == i && env.answers(i) == Some(x.desc))
    ensures devlist.Contents() == if ok then old(devlist.Contents()) + [d] else old(devlist.Contents())
    ensures ok ==> ctx.Sound(refs + multiset{d}) && d.devno == i
    ensures !ok ==> ctx.Sound(refs)
    ensures known <==> exists x :: x in old(ctx.devs) && x.devno == i
    ensures ok <==> (known || Answers(env, i)) && (env.granted(i) || !Grows(|old(devlist.Contents())|))
    ensures old(ctx.finalised) <= ctx.finalised
  {
    var found := ctx.FindDevice(i);
    hide Context.Sound, DeviceList.Valid, Grows, Answers;
    known := found.Some?;
    if found.Some? {
      d := found.value;
      ok := devlist.Append(found.value, env.granted(i));
      if ok {
        ctx.RefDevice(found.value, refs);
      }
    } else {
      ok, d := VisitNew(ctx, i, env, devlist, refs);
    }
  }

  lemma ListTerminated(devlist: DeviceList<Device>)
    requires devlist.Valid()
    ensures Terminated(devlist.list, devlist.Contents())
  {
  }

  lemma MoreEntries(refs: multiset<Device>, devs: seq<Device>, d: Device)
    ensures refs + multiset(devs + [d]) == refs + multiset(devs) + multiset{d}
  {
  }

  /** The devices that were not linked before have numbers below n, and the descriptors that they answered with. */
  ghost predicate NewAnswered(ctx: Context, env: Surroundings, before: seq<Device>, n: int)
    reads ctx, ctx.devs
  {
    forall x :: x in ctx.devs ==> x in before || (x.devno < n && env.answers(x.devno) == Some(x.desc))
  }

  lemma Later(ctx: Context, env: Surroundings, before: seq<Device>, n: int)
    requires NewAnswered(ctx, env, before, n) && n <= MAX_NUMBER_OF_DEVICES
    ensures NewAnswered(ctx, env, before, MAX_NUMBER_OF_DEVICES)
  {
  }

  lemma NumbersStep(env: Surroundings, i: nat, devs: seq<Device>, devs': seq<Device>)
    requires i >= 1 && HaveNumbers(devs, Numbers(env, i))
    requires if env.present(i) then exists d: Device :: d.devno == i && devs' == devs + [d] else devs' == devs
    ensures HaveNumbers(devs', Numbers(env, i + 1))
  {
  }

  /** The references are to exactly these devices. */
  ghost predicate Referred(devs: seq<Device>, refs: multiset<Device>) {
    (forall x :: x in devs ==> x in refs) && (forall x :: x in refs ==> x in devs)
  }

  lemma Members(ctx: Context, refs: multiset<Device>)
    requires ctx.Sound(refs)
    ensures Referred(ctx.devs, refs)
  {
  }

  lemma StillLinked(ctx: Context, before: seq<Device>, refs: multiset<Device>, refs': multiset<Device>)
    requires Referred(before, refs) && refs <= refs' && ctx.Sound(refs')
    ensures forall d :: d in before ==> d in ctx.devs
  {
    Members(ctx, refs');
  }

  /** A device with the next number is linked exactly if one was before the enumeration. */
  lemma Linkage(ctx: Context, env: Surroundings, before: seq<Device>, refs: multiset<Device>, devs: seq<Device>, i: nat)
    requires ctx.Sound(refs + multiset(devs)) && Referred(before, refs) && HaveNumbers(devs, Numbers(env, i))
    ensures (exists x :: x in ctx.devs && x.devno == i) <==> i in KnownKeys(before)
  {
    NumbersListed(env, i);
    forall x | x in devs ensures x.devno != i {
      var k := IndexOf(devs, x);
      assert Numbers(env, i)[k] in Numbers(env, i);
    }
    Members(ctx, refs + multiset(devs));
  }

  /** One turn, seen from the whole enumeration. */
  method Next(ctx: Context, i: nat, env: Surroundings, devlist: DeviceList<Device>,
              ghost before: seq<Device>, ghost devs: seq<Device>, ghost refs: multiset<Device>)
    returns (ok: bool, ghost devs': seq<Device>)
    requires ctx.Sound(refs + multiset(devs)) && devlist.Valid() && devlist.Contents() == devs
    requires i >= 1 && HaveNumbers(devs, Numbers(env, i)) && NewAnswered(ctx, env, before, i)
    requires Referred(before, refs)
    modifies ctx`devs, ctx`created, ctx`finalised, ctx.Nodes()`refCount, ctx.Nodes()`next, ctx.Nodes()`prev
    modifies devlist, devlist.list
    ensures devlist.Valid() && (devlist.list == old(devlist.list) || fresh(devlist.list))
    ensures NewAnswered(ctx, env, before, i + 1) && forall x :: x in ctx.devs ==> x in old(ctx.devs) || fresh(x)
    ensures ctx.Sound(refs + multiset(devs')) && devlist.Contents() == devs'
    ensures ok <==> !Fails(env, KnownKeys(before), i)
    ensures NoneFails(env, KnownKeys(before), i) && ok ==> NoneFails(env, KnownKeys(before), i + 1)
    ensures !ok && i < MAX_NUMBER_OF_DEVICES ==> !NoneFails(env, KnownKeys(before), MAX_NUMBER_OF_DEVICES)
    ensures ok ==> HaveNumbers(devs', Numbers(env, i + 1))
    ensures old(ctx.finalised) <= ctx.finalised
  {
    hide Context.Sound, DeviceList.Valid, Answers, Numbers, Grows, KnownKeys, Referred;
    Linkage(ctx, env, before, refs, devs, i);
    ok, devs' := true, devs;
    if env.present(i) {
      ghost var d, known;
      ok, d, known := Visit(ctx, i, env, devlist, refs + multiset(devs));
      if !ok {
        return;
      }
      MoreEntries(refs, devs, d);
      devs' := devs + [d];
    }
    NumbersStep(env, i, devs, devs');
  }

  lemma Start(ctx: Context, env: Surroundings, refs: multiset<Device>)
    requires ctx.Sound(refs)
    ensures HaveNumbers([], Numbers(env, 1)) && NewAnswered(ctx, env, ctx.devs, 1)
    ensures Referred(ctx.devs, refs) && NoneFails(env, KnownKeys(ctx.devs), 1)
  {
  }

  /** The loop, up to the first device that fails. */
  method Scan(ctx: Context, env: Surroundings, devlist: DeviceList<Device>, ghost refs: multiset<Device>)
    returns (ok: bool, ghost devs: seq<Device>)
    requires ctx.Sound(refs) && devlist.Valid() && devlist.Contents() == []
    modifies ctx`devs, ctx`created, ctx`finalised, ctx.Nodes()`refCount, ctx.Nodes()`next, ctx.Nodes()`prev
    modifies devlist, devlist.list
    ensures ctx.Sound(refs + multiset(devs)) && old(ctx.finalised) <= ctx.finalised
    ensures NewAnswered(ctx, env, old(ctx.devs), MAX_NUMBER_OF_DEVICES)
    ensures forall x :: x in ctx.devs ==> x in old(ctx.devs) || fresh(x)
    ensures devlist.Valid() && devlist.Contents() == devs && (devlist.list == old(devlist.list) || fresh(devlist.list))
    ensures ok ==> HaveNumbers(devs, Numbers(env, MAX_NUMBER_OF_DEVICES))
    ensures ok <==> NoneFails(env, KnownKeys(old(ctx.devs)), MAX_NUMBER_OF_DEVICES)
  {
    hide Context.Sound, DeviceList.Valid, Fails, NoneFails, HaveNumbers, Numbers, NewAnswered, KnownKeys, Referred;
    ghost var before := ctx.devs;
    devs := [];
    assert refs + multiset(devs) == refs;
    Start(ctx, env, refs);
    for i := 1 to MAX_NUMBER_OF_DEVICES
      invariant ctx.Sound(refs + multiset(devs)) && old(ctx.finalised) <= ctx.finalised
      invariant NewAnswered(ctx, env, before, i)
      invariant forall x :: x in ctx.devs ==> x in old(ctx.devs) || fresh(x)
      invariant devlist.Valid() && devlist.Contents() == devs
      invariant (devlist.list == old(devlist.list) || fresh(devlist.list))
      invariant HaveNumbers(devs, Numbers(env, i))
      invariant NoneFails(env, KnownKeys(before), i)
    {
      ok, devs := Next(ctx, i, env, devlist, before, devs, refs);
      if !ok {
        Later(ctx, env, before, i + 1);
        return;
      }
    }
    return true, devs;
  }

  /**
   usbyb_get_device_list: one device for every number that can be opened, in their order, and one more
   reference to each. A failure gives back all references that were taken.
   */
  method ListDevices(ctx: Context, env: Surroundings, ghost refs: multiset<Device>)
    returns (ok: bool, list: array<Option<Device>>, count: nat, ghost devs: seq<Device>)
    requires ctx.Sound(refs)
    modifies ctx`devs, ctx`created, ctx`finalised, ctx.Nodes()`refCount, ctx.Nodes()`next, ctx.Nodes()`prev
    ensures ok ==> ctx.Sound(refs + multiset(devs)) && Terminated(list, devs) && fresh(list) && count == |devs|
    ensures ok ==> HaveNumbers(devs, Numbers(env, MAX_NUMBER_OF_DEVICES))
    ensures ok ==> forall d :: d in devs ==> d in ctx.devs
    ensures !ok ==> ctx.Sound(refs)
    ensures ok <==> NoneFails(env, KnownKeys(old(ctx.devs)), MAX_NUMBER_OF_DEVICES)
    ensures forall x :: x in ctx.devs ==> x in old(ctx.devs) || (fresh(x) && env.answers(x.devno) == Some(x.desc))
    ensures old(ctx.finalised) <= ctx.finalised
  {
    hide Context.Sound, DeviceList.Valid, NoneFails, Terminated, KnownKeys;
    var devlist := new DeviceList<Device>();
    ok, devs := Scan(ctx, env, devlist, refs);
    ListTerminated(devlist);
    list, count := devlist.list, devlist.count;
    if ok {
      forall d | d in devs ensures d in ctx.devs {
        ctx.Linkedness(d, refs + multiset(devs));
      }
    } else {
      FreeDeviceList(ctx, devlist.list, true, devs, refs);
    }
  }
}
