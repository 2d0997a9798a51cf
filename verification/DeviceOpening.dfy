/** Opening and closing devices, and opening a device by its ids (src/libusby.c:218-326). */
module DeviceOpening {
  import opened Options
  import opened Sequences
  import opened DeviceNodes
  import opened DeviceRegistry
  import opened DeviceLists
  import opened DescriptorRequests

  /** A vendor or product id has 16 bits. */
  type Id = x: int | 0 <= x < 0x10000

  /**
   USB 2.0 section 9.6.1: the vendor id is in bytes 8 and 9 and the product id in bytes 10 and 11, each with the low
   byte first.
   */
  predicate HasIds(desc: Descriptor, vid: Id, pid: Id) {
    desc[0] == 18 && desc[8..12] == [vid % 256, vid / 256, pid % 256, pid / 256]
  }

  /** The comparison of lines 266 and 284, where there is a descriptor. */
  predicate Matches(desc: Descriptor, vid: Id, pid: Id): (r: bool)
    ensures r <==> HasIds(desc, vid, pid)
  {
    assert desc[8..12] == [desc[8], desc[9], desc[10], desc[11]];
    desc[0] == 18 && 256 * (desc[9] as int) + desc[8] == vid && 256 * (desc[11] as int) + desc[10] == pid
  }

  /** libusby_open; `opens` says that the handle can be allocated and the backend opens the device. */
  method Open(ctx: Context, d: Device, opens: bool, ghost refs: multiset<Device>) returns (h: Option<Handle>)
    requires ctx.Sound(refs) && d in ctx.devs
    modifies d`refCount
    ensures h == if opens then Some(Handle(d)) else None
    ensures ctx.Sound(if opens then refs + multiset{d} else refs)
  {
    if !opens {
      return None;
    }
    hide Context.Sound;
    ctx.RefDevice(d, refs);
    return Some(Handle(d));
  }

  /** libusby_close. */
  method Close(ctx: Context, h: Handle, ghost refs: multiset<Device>)
    requires ctx.Sound(refs + multiset{h.dev})
    modifies ctx`devs, ctx`finalised, ctx.Nodes()`refCount, ctx.Nodes()`next, ctx.Nodes()`prev
    ensures ctx.Sound(refs)
    ensures h.dev in refs ==> ctx.devs == old(ctx.devs)
    ensures forall x :: x in ctx.devs ==> x in old(ctx.devs)
    ensures old(ctx.finalised) <= ctx.finalised
  {
    hide Context.Sound;
    ctx.Linkedness(h.dev, refs + multiset{h.dev});
    ctx.GiveBack(h.dev, refs);
  }

  // ---------------------------------------------------------------- by ids

  /**
   Whether the device at a position of the list can be opened, in the first and in the second loop, and the
   request for its descriptor in the second.
   */
  datatype Attempts = Attempts(first: nat -> bool, second: nat -> bool, requests: nat -> Request)

  /** The first loop takes device k: it opens, and its cached descriptor has the ids. */
  predicate TakenAtOnce(descs: seq<Descriptor>, at: Attempts, vid: Id, pid: Id, k: nat)
    requires k < |descs|
  {
    HasIds(descs[k], vid, pid) && at.first(k)
  }

  /** The second loop takes device k: it opens, and its descriptor, cached or not, has the ids. */
  predicate TakenAfterAsking(descs: seq<Descriptor>, at: Attempts, vid: Id, pid: Id, k: nat)
    requires k < |descs|
  {
    at.second(k) && HasIds(Fetched(descs[k], at.requests(k)), vid, pid)
  }

  /** The second loop opens device k before it takes any. */
  predicate AskedAt(descs: seq<Descriptor>, at: Attempts, vid: Id, pid: Id, k: nat)
    requires k < |descs|
  {
    at.second(k) && forall j :: 0 <= j < k ==> !TakenAfterAsking(descs, at, vid, pid, j)
  }

  /** The descriptor field of device k after the second loop. */
  function DescAfter(descs: seq<Descriptor>, at: Attempts, vid: Id, pid: Id, k: nat): Descriptor
    requires k < |descs|
  {
    if AskedAt(descs, at, vid, pid, k) then Fetched(descs[k], at.requests(k)) else descs[k]
  }

  /** The first loop takes none, so that there is a second. */
  predicate NoneAtOnce(descs: seq<Descriptor>, at: Attempts, vid: Id, pid: Id) {
    forall k :: 0 <= k < |descs| ==> !TakenAtOnce(descs, at, vid, pid, k)
  }

  /** The descriptor fields after both loops. */
  ghost predicate Remembered(descs: seq<Descriptor>, at: Attempts, vid: Id, pid: Id, after: seq<Descriptor>) {
    && |after| == |descs|
    && forall k :: 0 <= k < |descs| ==>
         after[k] == if NoneAtOnce(descs, at, vid, pid) then DescAfter(descs, at, vid, pid, k) else descs[k]
  }

  /** The descriptor fields of the listed devices. */
  ghost predicate HaveDescs(devs: seq<Device>, descs: seq<Descriptor>)
    reads devs
  {
    |devs| == |descs| && forall k :: 0 <= k < |devs| ==> devs[k].desc == descs[k]
  }

  /** The loop of lines 259-271: devices with a matching cached descriptor. */
  method FirstLoop(ctx: Context, list: array<Option<Device>>, cnt: nat, vid: Id, pid: Id, at: Attempts,
                   ghost devs: seq<Device>, ghost descs: seq<Descriptor>, ghost refs: multiset<Device>)
    returns (h: Option<Handle>, ghost chosen: nat)
    requires ctx.Sound(refs) && Terminated(list, devs) && cnt == |devs| && (forall d :: d in devs ==> d in ctx.devs)
    requires HaveDescs(devs, descs)
    modifies ctx.Nodes()`refCount
    ensures h.None? ==> ctx.Sound(refs) && forall k :: 0 <= k < |descs| ==> !TakenAtOnce(descs, at, vid, pid, k)
    ensures h.Some? ==>
              && chosen < cnt && h.value.dev == devs[chosen] && ctx.Sound(refs + multiset{devs[chosen]})
              && TakenAtOnce(descs, at, vid, pid, chosen) && HasIds(h.value.dev.desc, vid, pid)
              && forall k :: 0 <= k < chosen ==> !TakenAtOnce(descs, at, vid, pid, k)
  {
    hide Context.Sound, Matches, HasIds;
    h, chosen := None, 0;
    for i := 0 to cnt
      invariant h.None? && ctx.Sound(refs)
      invariant forall k :: 0 <= k < i ==> !TakenAtOnce(descs, at, vid, pid, k)
    {
      var d := list[i].value;
      assert d == devs[i] && d in ctx.devs && d.desc == descs[i];
      if Matches(d.desc, vid, pid) {
        h := Open(ctx, d, at.first(i), refs);
        if h.Some? {
          chosen := i;
          return;
        }
      }
    }
  }

  /** Lines 277-288: the device is opened and asked, and closed again unless it has the ids. */
  method Try(ctx: Context, d: Device, opens: bool, q: Request, vid: Id, pid: Id, ghost refs: multiset<Device>)
    returns (h: Option<Handle>)
    requires ctx.Sound(refs) && d in refs && d in ctx.devs
    modifies ctx`devs, ctx`finalised, ctx.Nodes()`refCount, ctx.Nodes()`next, ctx.Nodes()`prev, d`desc
    ensures d.desc == if opens then Fetched(old(d.desc), q) else old(d.desc)
    ensures h == if opens && HasIds(d.desc, vid, pid) then Some(Handle(d)) else None
    ensures ctx.Sound(if h.Some? then refs + multiset{d} else refs) && ctx.devs == old(ctx.devs)
    ensures old(ctx.finalised) <= ctx.finalised
  {
    hide Context.Sound;
    h := Open(ctx, d, opens, refs);
    if h.Some? {
      var r := GetDeviceDescriptor(ctx, h.value, q, refs + multiset{d});
      if !r.Got? || !Matches(r.desc, vid, pid) {
        Close(ctx, h.value, refs);
        h := None;
      }
    }
  }

  /** The loop of lines 273-289: every device is opened and asked. */
  method SecondLoop(ctx: Context, list: array<Option<Device>>, cnt: nat, vid: Id, pid: Id, at: Attempts,
                    ghost devs: seq<Device>, ghost descs: seq<Descriptor>, ghost refs: multiset<Device>)
    returns (h: Option<Handle>, ghost chosen: nat)
    requires ctx.Sound(refs) && Terminated(list, devs) && cnt == |devs| && Distinct(devs) && HaveDescs(devs, descs)
    requires forall d :: d in devs ==> d in ctx.devs && d in refs
    modifies ctx`devs, ctx`finalised, ctx.Nodes()`refCount, ctx.Nodes()`next, ctx.Nodes()`prev, devs`desc
    ensures ctx.devs == old(ctx.devs)
    ensures forall k :: 0 <= k < cnt ==> devs[k].desc == DescAfter(descs, at, vid, pid, k)
    ensures h.None? ==> ctx.Sound(refs) && forall k :: 0 <= k < |descs| ==> !TakenAfterAsking(descs, at, vid, pid, k)
    ensures h.Some? ==>
              && chosen < cnt && h.value.dev == devs[chosen] && ctx.Sound(refs + multiset{devs[chosen]})
              && TakenAfterAsking(descs, at, vid, pid, chosen) && HasIds(h.value.dev.desc, vid, pid)
              && forall k :: 0 <= k < chosen ==> !TakenAfterAsking(descs, at, vid, pid, k)
    ensures old(ctx.finalised) <= ctx.finalised
  {
    hide Context.Sound, Matches, HasIds, Fetched;
    h, chosen := None, 0;
    for i := 0 to cnt
      invariant h.None? && ctx.Sound(refs) && ctx.devs == old(ctx.devs) && old(ctx.finalised) <= ctx.finalised
      invariant forall k :: 0 <= k < i ==> !TakenAfterAsking(descs, at, vid, pid, k)
      invariant forall k :: 0 <= k < i ==> devs[k].desc == DescAfter(descs, at, vid, pid, k)
      invariant forall k :: i <= k < cnt ==> devs[k].desc == descs[k]
    {
      var d := list[i].value;
      assert d == devs[i] && d in ctx.devs && d.desc == descs[i];
      h := Try(ctx, d, at.second(i), at.requests(i), vid, pid, refs);
      if h.Some? {
        chosen := i;
        assert TakenAfterAsking(descs, at, vid, pid, i);
        assert forall k :: i < k < cnt ==> !AskedAt(descs, at, vid, pid, k);
        return;
      }
    }
  }

  /** The listed device that the two loops choose, if any. */
  ghost predicate Chosen(descs: seq<Descriptor>, at: Attempts, vid: Id, pid: Id, i: nat) {
    i < |descs| &&
    if NoneAtOnce(descs, at, vid, pid) then
      TakenAfterAsking(descs, at, vid, pid, i) && forall k :: 0 <= k < i ==> !TakenAfterAsking(descs, at, vid, pid, k)
    else
      TakenAtOnce(descs, at, vid, pid, i) && forall k :: 0 <= k < i ==> !TakenAtOnce(descs, at, vid, pid, k)
  }

  lemma {:induction false} TakenMeansChosen(descs: seq<Descriptor>, at: Attempts, vid: Id, pid: Id, k: nat)
    requires k < |descs| && TakenAtOnce(descs, at, vid, pid, k)
    ensures exists i: nat :: Chosen(descs, at, vid, pid, i)
  {
    if j: nat :| j < k && TakenAtOnce(descs, at, vid, pid, j) {
      TakenMeansChosen(descs, at, vid, pid, j);
    } else {
      assert Chosen(descs, at, vid, pid, k);
    }
  }

  /** The device has the ids in the bytes of its field, or gives them in a full answer where the field is empty. */
  predicate ShowsIds(desc: Descriptor, q: Request, vid: Id, pid: Id) {
    || HasIds(desc, vid, pid)
    || (desc[0] != 18 && q.answer.Bytes? && |q.answer.data| == 18 && HasIds(q.answer.data, vid, pid))
  }

  /** No device with the ids in its bytes opened at the first attempt, and none that shows them at the second. */
  predicate NoneByBytes(descs: seq<Descriptor>, at: Attempts, vid: Id, pid: Id) {
    && (forall k :: 0 <= k < |descs| && HasIds(descs[k], vid, pid) ==> !at.first(k))
    && (forall k :: 0 <= k < |descs| && ShowsIds(descs[k], at.requests(k), vid, pid) ==> !at.second(k))
  }

  lemma {:induction false} AskedMeansChosen(descs: seq<Descriptor>, at: Attempts, vid: Id, pid: Id, k: nat)
    requires k < |descs| && TakenAfterAsking(descs, at, vid, pid, k) && NoneAtOnce(descs, at, vid, pid)
    ensures exists i: nat :: Chosen(descs, at, vid, pid, i)
  {
    if j: nat :| j < k && TakenAfterAsking(descs, at, vid, pid, j) {
      AskedMeansChosen(descs, at, vid, pid, j);
    } else {
      assert Chosen(descs, at, vid, pid, k);
    }
  }

  lemma NoneChosen(descs: seq<Descriptor>, at: Attempts, vid: Id, pid: Id)
    requires forall i: nat :: !Chosen(descs, at, vid, pid, i)
    ensures NoneByBytes(descs, at, vid, pid)
  {
    hide Chosen, HasIds, ShowsIds;
    forall k | 0 <= k < |descs|
      ensures !TakenAtOnce(descs, at, vid, pid, k)
      ensures HasIds(descs[k], vid, pid) ==> !at.first(k)
    {
      if TakenAtOnce(descs, at, vid, pid, k) {
        TakenMeansChosen(descs, at, vid, pid, k);
      }
    }
    forall k | 0 <= k < |descs| && ShowsIds(descs[k], at.requests(k), vid, pid)
      ensures !at.second(k)
    {
      ShownIsFetched(descs[k], at.requests(k), vid, pid);
      if at.second(k) {
        AskedMeansChosen(descs, at, vid, pid, k);
      }
    }
  }

  lemma ShownIsFetched(desc: Descriptor, q: Request, vid: Id, pid: Id)
    requires ShowsIds(desc, q, vid, pid)
    ensures HasIds(Fetched(desc, q), vid, pid)
  {
    if desc[0] != 18 {
      AskedFresh(desc, q);
    }
  }

  /** Both loops. */
  method Choose(ctx: Context, list: array<Option<Device>>, cnt: nat, vid: Id, pid: Id, at: Attempts,
                ghost devs: seq<Device>, ghost refs: multiset<Device>)
    returns (h: Option<Handle>, ghost descs: seq<Descriptor>, ghost after: seq<Descriptor>)
    requires ctx.Sound(refs + multiset(devs)) && Terminated(list, devs) && cnt == |devs| && Distinct(devs)
    requires forall d :: d in devs ==> d in ctx.devs
    modifies ctx`devs, ctx`finalised, ctx.Nodes()`refCount, ctx.Nodes()`next, ctx.Nodes()`prev, devs`desc
    ensures old(HaveDescs(devs, descs)) && ctx.devs == old(ctx.devs)
    ensures Remembered(descs, at, vid, pid, after) && HaveDescs(devs, after)
    ensures h.Some? ==>
              && HasIds(h.value.dev.desc, vid, pid) && ctx.Sound(refs + multiset{h.value.dev} + multiset(devs))
              && exists i: nat :: i < |devs| && Chosen(descs, at, vid, pid, i) && h.value.dev == devs[i]
    ensures h.None? ==> ctx.Sound(refs + multiset(devs)) && forall i: nat :: !Chosen(descs, at, vid, pid, i)
    ensures h.None? ==> NoneByBytes(descs, at, vid, pid)
    ensures old(ctx.finalised) <= ctx.finalised
  {
    hide Context.Sound, HasIds, NoneByBytes, TakenAtOnce, TakenAfterAsking, Terminated;
    descs := seq(|devs|, k requires 0 <= k < |devs| reads devs => devs[k].desc);
    ghost var chosen;
    h, chosen := FirstLoop(ctx, list, cnt, vid, pid, at, devs, descs, refs + multiset(devs));
    if h.None? {
      h, chosen := SecondLoop(ctx, list, cnt, vid, pid, at, devs, descs, refs + multiset(devs));
    }
    after := seq(|devs|, k requires 0 <= k < |devs| reads devs => devs[k].desc);
    if h.Some? {
      assert Chosen(descs, at, vid, pid, chosen);
      assert refs + multiset(devs) + multiset{h.value.dev} == refs + multiset{h.value.dev} + multiset(devs);
    } else {
      NoneChosen(descs, at, vid, pid);
    }
  }

  lemma NewNumbers(ctx: Context, before: seq<Device>, devs: seq<Device>, refs: multiset<Device>)
    requires ctx.Sound(refs) && (forall d :: d in before ==> d in ctx.devs) && forall d :: d in devs ==> d in ctx.devs
    ensures forall d :: d in devs && d !in before ==> d.devno !in KnownKeys(before)
  {
  }

  /**
   libusby_open_device_with_vid_pid: the first listed device with a matching cached descriptor that opens, or
   else the first that opens and answers with one. The only reference that remains is that of the handle.
   */
  method OpenDeviceWithVidPid(ctx: Context, env: Surroundings, at: Attempts, vid: Id, pid: Id,
                              ghost refs: multiset<Device>)
    returns (h: Option<Handle>, ghost listed: bool, ghost devs: seq<Device>,
             ghost descs: seq<Descriptor>, ghost after: seq<Descriptor>)
    requires ctx.Sound(refs)
    modifies ctx`devs, ctx`created, ctx`finalised, ctx.Nodes()`refCount, ctx.Nodes()`next, ctx.Nodes()`prev
    modifies ctx.Nodes()`desc
    ensures ctx.Sound(if h.Some? then refs + multiset{h.value.dev} else refs)
    ensures listed ==> HaveNumbers(devs, Numbers(env, MAX_NUMBER_OF_DEVICES)) && |descs| == |devs|
    ensures listed ==> forall k :: 0 <= k < |devs| ==>
              if devs[k] in old(ctx.devs) then descs[k] == old(devs[k].desc)
              else
                && fresh(devs[k]) && devs[k].devno !in KnownKeys(old(ctx.devs))
                && env.answers(devs[k].devno) == Some(descs[k])
    ensures h.Some? ==>
              && listed && HasIds(h.value.dev.desc, vid, pid)
              && exists i: nat :: i < |devs| && Chosen(descs, at, vid, pid, i) && h.value.dev == devs[i]
    ensures listed && h.None? ==> forall i: nat :: !Chosen(descs, at, vid, pid, i)
    ensures listed && h.None? ==> NoneByBytes(descs, at, vid, pid)
    ensures listed ==> Remembered(descs, at, vid, pid, after) && HaveDescs(devs, after)
    ensures forall x :: x in old(ctx.devs) && (listed ==> x !in devs) ==> x.desc == old(x.desc)
    ensures listed <==> NoneFails(env, KnownKeys(old(ctx.devs)), MAX_NUMBER_OF_DEVICES)
    ensures old(ctx.finalised) <= ctx.finalised && forall x :: x in ctx.devs ==> x in old(ctx.devs) || fresh(x)
  {
    hide Context.Sound, HasIds, NoneByBytes, NoneFails, Chosen, Terminated, KnownKeys;
    ghost var before := ctx.devs;
    Members(ctx, refs);
    var ok, list, cnt;
    ok, list, cnt, devs := ListDevices(ctx, env, refs);
    listed, descs, after, h := ok, [], [], None;
    if !ok {
      return;
    }
    StillLinked(ctx, before, refs, refs + multiset(devs));
    NewNumbers(ctx, before, devs, refs + multiset(devs));
    NumbersListed(env, MAX_NUMBER_OF_DEVICES);
    h, descs, after := Choose(ctx, list, cnt, vid, pid, at, devs, refs);
    FreeDeviceList(ctx, list, true, devs, if h.Some? then refs + multiset{h.value.dev} else refs);
  }
}
