/**
 Whole runs of a program that lists, references, opens and closes devices: the reference counts are
 exactly what the program holds, whatever it does in whatever order.
 */
module DeviceClient {
  import opened Options
  import opened Sequences
  import opened DeviceNodes
  import opened DeviceRegistry
  import opened DeviceLists
  import opened DescriptorRequests
  import opened DeviceOpening
  import Linux = DeviceListsLinux

  /** How a program names a device it holds: an entry of a list, a reference of its own, the device of a handle. */
  datatype Place = Entry(i: nat, k: nat) | Own(k: nat) | OfHandle(k: nat)

  /** One call. Lists, devices and handles are named by position; if there is none, nothing happens. */
  datatype Action =
    | List(env: Surroundings)
    | ListLinux(found: seq<Linux.Entry>)
    | FreeList(i: nat, unref: bool)
    | Ref(place: Place)
    | Unref(k: nat)
    | OpenAt(place: Place, opens: bool)
    | CloseHandle(k: nat)
    | GetDescriptor(k: nat, q: Request)
    | OpenByIds(env: Surroundings, at: Attempts, vid: Id, pid: Id)

  /** On Linux, each device occurs once per scan. */
  ghost predicate Reasonable(a: Action) {
    a.ListLinux? ==> Linux.OncePerScan(a.found)
  }

  function WithoutAt<T>(s: seq<T>, i: nat): seq<T>
    requires i < |s|
  {
    s[..i] + s[i + 1..]
  }

  function Listed(entries: seq<seq<Device>>): multiset<Device> {
    if entries == [] then multiset{} else Listed(entries[..|entries| - 1]) + multiset(entries[|entries| - 1])
  }

  function HandleDevs(handles: seq<Handle>): (r: seq<Device>)
    ensures |r| == |handles| && forall k :: 0 <= k < |handles| ==> r[k] == handles[k].dev
  {
    seq(|handles|, k requires 0 <= k < |handles| => handles[k].dev)
  }

  function InUse(handles: seq<Handle>): multiset<Device> {
    multiset(HandleDevs(handles))
  }

  function Total(listed: multiset<Device>, inUse: multiset<Device>, own: multiset<Device>): multiset<Device> {
    listed + inUse + own
  }

  lemma WithoutBeforeLast<T>(s: seq<T>, i: nat)
    requires i + 1 < |s|
    ensures var n := |s| - 1;
            s == s[..n] + [s[n]] && s[..n][i] == s[i] && WithoutAt(s, i) == WithoutAt(s[..n], i) + [s[n]]
  {
    var n := |s| - 1;
    assert s[..n][..i] == s[..i] && s[..n][i + 1..] == s[i + 1..n];
    assert s[i + 1..] == s[i + 1..n] + [s[n]];
  }

  lemma {:induction false} ListedWithout(entries: seq<seq<Device>>, i: nat)
    requires i < |entries|
    ensures Listed(entries) == Listed(WithoutAt(entries, i)) + multiset(entries[i])
  {
    var n := |entries| - 1;
    if i < n {
      hide Listed, WithoutAt;
      ListedWithout(entries[..n], i);
      WithoutBeforeLast(entries, i);
      ListedOneMore(WithoutAt(entries[..n], i), entries[n]);
      ListedOneMore(entries[..n], entries[n]);
    } else {
      assert WithoutAt(entries, i) == entries[..n];
    }
  }

  lemma ListedOneMore(entries: seq<seq<Device>>, devs: seq<Device>)
    ensures Listed(entries + [devs]) == Listed(entries) + multiset(devs)
  {
    assert (entries + [devs])[..|entries|] == entries;
  }

  lemma HeldWithout(held: seq<Device>, i: nat)
    requires i < |held|
    ensures multiset(held) == multiset(WithoutAt(held, i)) + multiset{held[i]}
  {
    assert held == held[..i] + [held[i]] + held[i + 1..];
  }

  lemma InUseOneMore(handles: seq<Handle>, h: Handle)
    ensures InUse(handles + [h]) == InUse(handles) + multiset{h.dev}
  {
    assert HandleDevs(handles + [h]) == HandleDevs(handles) + [h.dev];
  }

  lemma InUseWithout(handles: seq<Handle>, i: nat)
    requires i < |handles|
    ensures InUse(handles) == InUse(WithoutAt(handles, i)) + multiset{handles[i].dev}
  {
    HeldWithout(HandleDevs(handles), i);
    assert HandleDevs(WithoutAt(handles, i)) == WithoutAt(HandleDevs(handles), i);
  }

  lemma {:induction false} EntryListed(entries: seq<seq<Device>>, i: nat, k: nat)
    requires i < |entries| && k < |entries[i]|
    ensures entries[i][k] in Listed(entries)
  {
    ListedWithout(entries, i);
  }

  /** The Linux enumeration ends with the n-th device file, or with all of them. */
  predicate EndsAt(found: seq<Linux.Entry>, known: set<int>, n: nat) {
    && n <= |found| && Linux.GoesOn(found, known, n)
    && (n < |found| ==> Linux.Stops(found, known, n) || Linux.Fails(found, known, n))
  }

  /** What a program holds, and the descriptor fields of the linked devices by number. */
  datatype Holding = Holding(entries: seq<seq<Device>>, handles: seq<Handle>, held: seq<Device>,
                             cached: map<int, Descriptor>)

  /** Everything a program holds. */
  function Held(h: Holding): multiset<Device> {
    Total(Listed(h.entries), InUse(h.handles), multiset(h.held))
  }

  /** A device number and a descriptor field are there exactly for the devices that are held, one device a number. */
  ghost predicate Consistent(h: Holding) {
    && (forall d :: d in Held(h) ==> d.devno in h.cached)
    && (forall n :: n in h.cached ==> exists d :: d in Held(h) && d.devno == n)
    && (forall d, d' :: d in Held(h) && d' in Held(h) && d.devno == d'.devno ==> d == d')
  }

  function Named(entries: seq<seq<Device>>, handles: seq<Handle>, held: seq<Device>, p: Place): Option<Device> {
    match p
    case Entry(i, k) => if i < |entries| && k < |entries[i]| then Some(entries[i][k]) else None
    case Own(k) => if k < |held| then Some(held[k]) else None
    case OfHandle(k) => if k < |handles| then Some(handles[k].dev) else None
  }

  const NO_DESCRIPTOR: Descriptor := seq(18, _ => 0)

  /** The descriptors the search by ids finds on its list: those of linked devices, and what new ones answer. */
  function Offered(env: Surroundings, cached: map<int, Descriptor>): (r: seq<Descriptor>)
    ensures |r| == |Numbers(env, MAX_NUMBER_OF_DEVICES)|
  {
    var ns := Numbers(env, MAX_NUMBER_OF_DEVICES);
    seq(|ns|, k requires 0 <= k < |ns| =>
      if ns[k] in cached then cached[ns[k]]
      else if env.answers(ns[k]).Some? then env.answers(ns[k]).value else NO_DESCRIPTOR)
  }

  /** One more list was obtained. */
  ghost predicate OneMoreList(h: Holding, h': Holding) {
    |h'.entries| == |h.entries| + 1 && h.entries <= h'.entries
  }

  /** One more handle was obtained, of the i-th device on the list of all that are present. */
  ghost predicate OneMoreHandleOf(h: Holding, h': Holding, env: Surroundings, i: nat) {
    && |h'.handles| == |h.handles| + 1 && h.handles <= h'.handles
    && i < |Numbers(env, MAX_NUMBER_OF_DEVICES)|
    && h'.handles[|h.handles|].dev.devno == Numbers(env, MAX_NUMBER_OF_DEVICES)[i]
  }

  /** What one call does to what the program holds. */
  ghost predicate Does(a: Action, h: Holding, h': Holding) {
    match a
    case List(env) =>
      && h'.handles == h.handles && h'.held == h.held
      && (if NoneFails(env, h.cached.Keys, MAX_NUMBER_OF_DEVICES)
          then OneMoreList(h, h') && HaveNumbers(h'.entries[|h.entries|], Numbers(env, MAX_NUMBER_OF_DEVICES))
          else h'.entries == h.entries)
    case ListLinux(found) =>
      && h'.handles == h.handles && h'.held == h.held
      && exists n: nat :: EndsAt(found, h.cached.Keys, n) &&
           if n < |found| && Linux.Fails(found, h.cached.Keys, n) then h'.entries == h.entries
           else OneMoreList(h, h') && HaveNumbers(h'.entries[|h.entries|], Linux.Keys(found[..n], h.cached.Keys))
    case FreeList(i, unref) =>
      if i >= |h.entries| then h' == h
      else
        && h'.entries == WithoutAt(h.entries, i) && h'.handles == h.handles
        && h'.held == (if unref then h.held else h.held + h.entries[i])
    case Ref(place) =>
      var d := Named(h.entries, h.handles, h.held, place);
      && h'.entries == h.entries && h'.handles == h.handles
      && h'.held == if d.Some? then h.held + [d.value] else h.held
    case Unref(k) =>
      if k >= |h.held| then h' == h
      else h'.entries == h.entries && h'.handles == h.handles && h'.held == WithoutAt(h.held, k)
    case OpenAt(place, opens) =>
      var d := Named(h.entries, h.handles, h.held, place);
      && h'.entries == h.entries && h'.held == h.held
      && h'.handles == if opens && d.Some? then h.handles + [Handle(d.value)] else h.handles
    case CloseHandle(k) =>
      if k >= |h.handles| then h' == h
      else h'.entries == h.entries && h'.handles == WithoutAt(h.handles, k) && h'.held == h.held
    case GetDescriptor(k, q) =>
      h'.entries == h.entries && h'.handles == h.handles && h'.held == h.held && h'.cached.Keys == h.cached.Keys
    case OpenByIds(env, at, vid, pid) =>
      && h'.entries == h.entries && h'.held == h.held
      && (if NoneFails(env, h.cached.Keys, MAX_NUMBER_OF_DEVICES)
             && exists i: nat :: Chosen(Offered(env, h.cached), at, vid, pid, i)
          then exists i: nat :: Chosen(Offered(env, h.cached), at, vid, pid, i) && OneMoreHandleOf(h, h', env, i)
          else h'.handles == h.handles)
  }

  /** A device can be referenced and opened through a list entry, an own reference and a handle alike. */
  lemma AnyPlaceWorks(h: Holding, h': Holding, i: nat, k: nat)
    ensures i < |h.entries| && k < |h.entries[i]| && Does(Ref(Entry(i, k)), h, h') ==>
              h'.held == h.held + [h.entries[i][k]]
    ensures k < |h.held| && Does(Ref(Own(k)), h, h') ==> h'.held == h.held + [h.held[k]]
    ensures k < |h.handles| && Does(Ref(OfHandle(k)), h, h') ==> h'.held == h.held + [h.handles[k].dev]
    ensures i < |h.entries| && k < |h.entries[i]| && Does(OpenAt(Entry(i, k), true), h, h') ==>
              h'.handles == h.handles + [Handle(h.entries[i][k])]
    ensures k < |h.held| && Does(OpenAt(Own(k), true), h, h') ==> h'.handles == h.handles + [Handle(h.held[k])]
    ensures k < |h.handles| && Does(OpenAt(OfHandle(k), true), h, h') ==>
              h'.handles == h.handles + [Handle(h.handles[k].dev)]
  {
  }

  /** What the descriptor field of device n is after a call. */
  ghost predicate Knows(a: Action, h: Holding, n: int, desc: Descriptor) {
    match a
    case List(env) => if n in h.cached then desc == h.cached[n] else env.answers(n) == Some(desc)
    case ListLinux(found) =>
      if n in h.cached then desc == h.cached[n] else exists e :: e in found && e.key == n && e.desc == desc
    case GetDescriptor(k, q) =>
      && n in h.cached
      && desc == if k < |h.handles| && h.handles[k].dev.devno == n then Fetched(h.cached[n], q) else h.cached[n]
    case OpenByIds(env, at, vid, pid) =>
      var descs, ns := Offered(env, h.cached), Numbers(env, MAX_NUMBER_OF_DEVICES);
      if NoneFails(env, h.cached.Keys, MAX_NUMBER_OF_DEVICES) && n in ns then
        var k := IndexOf(ns, n);
        desc == if NoneAtOnce(descs, at, vid, pid) then DescAfter(descs, at, vid, pid, k) else descs[k]
      else n in h.cached && desc == h.cached[n]
    case _ => n in h.cached && desc == h.cached[n]
  }

  ghost predicate Remembers(a: Action, h: Holding, h': Holding) {
    forall n :: n in h'.cached ==> Knows(a, h, n, h'.cached[n])
  }

  // ---------------------------------------------------------------- the descriptor fields

  /** The map has the descriptor fields of the devices. */
  ghost predicate Caches(devs: seq<Device>, cached: map<int, Descriptor>)
    reads devs`desc
  {
    && (forall d :: d in devs ==> d.devno in cached && cached[d.devno] == d.desc)
    && (forall n :: n in cached ==> exists d :: d in devs && d.devno == n)
  }

  ghost function DescOf(devs: seq<Device>, n: int): Descriptor
    requires n in KnownKeys(devs)
    reads devs`desc
  {
    var d :| d in devs && d.devno == n;
    d.desc
  }

  ghost function CachedDescs(devs: seq<Device>): map<int, Descriptor>
    reads devs`desc
  {
    map n | n in KnownKeys(devs) :: DescOf(devs, n)
  }

  lemma CachesDescs(devs: seq<Device>)
    requires Keyed(devs)
    ensures Caches(devs, CachedDescs(devs)) && CachedDescs(devs).Keys == KnownKeys(devs)
  {
  }

  lemma KnownByNumber(devs: seq<Device>, cached: map<int, Descriptor>, held: multiset<Device>)
    requires Caches(devs, cached) && Keyed(devs) && Referred(devs, held)
    ensures forall d :: d in held ==> d.devno in cached
    ensures forall n :: n in cached ==> exists d :: d in held && d.devno == n
    ensures forall d, d' :: d in held && d' in held && d.devno == d'.devno ==> d == d'
  {
    forall n | n in cached
      ensures exists d :: d in held && d.devno == n
    {
      var d :| d in devs && d.devno == n;
      assert d in held;
    }
  }

  /** No device is new. */
  lemma NoneNew(before: seq<Device>, was: map<int, Descriptor>, devs: seq<Device>, now: map<int, Descriptor>)
    requires Caches(before, was) && Caches(devs, now) && forall d :: d in devs ==> d in before
    ensures forall n :: n in now ==> n in was && now[n] == was[n]
  {
  }

  /** No device has gone. */
  lemma NoneGone(before: seq<Device>, was: map<int, Descriptor>, devs: seq<Device>, now: map<int, Descriptor>)
    requires Caches(before, was) && Caches(devs, now) && Keyed(devs) && forall d :: d in before ==> d in devs
    ensures forall n :: n in now && n in was ==> now[n] == was[n]
    ensures forall n :: n in now && n !in was ==>
              exists d :: d in devs && d !in before && d.devno == n && d.desc == now[n]
  {
  }

  /** The field of one device has changed. */
  lemma OneAsked(d: Device, devs: seq<Device>, was: map<int, Descriptor>, now: map<int, Descriptor>, desc: Descriptor)
    requires d in devs && d.desc == desc && Keyed(devs) && Caches(devs, now)
    requires was.Keys == now.Keys && forall x :: x in devs && x != d ==> was[x.devno] == x.desc
    ensures forall n :: n in now ==> now[n] == if n == d.devno then desc else was[n]
  {
  }

  lemma ByIdsDoes(env: Surroundings, at: Attempts, vid: Id, pid: Id, h: Holding, h': Holding,
                  listed: bool, got: Option<Handle>, devs: seq<Device>)
    requires listed <==> NoneFails(env, h.cached.Keys, MAX_NUMBER_OF_DEVICES)
    requires h'.entries == h.entries && h'.held == h.held
    requires h'.handles == if got.Some? then h.handles + [got.value] else h.handles
    requires listed ==> HaveNumbers(devs, Numbers(env, MAX_NUMBER_OF_DEVICES))
    requires var descs := Offered(env, h.cached);
             if got.Some? then
               listed && exists i: nat :: i < |devs| && Chosen(descs, at, vid, pid, i) && got.value.dev == devs[i]
             else listed ==> forall i: nat :: !Chosen(descs, at, vid, pid, i)
    ensures Does(OpenByIds(env, at, vid, pid), h, h')
  {
    hide Chosen, NoneFails, Offered, Numbers;
    if got.Some? {
      var i: nat :| i < |devs| && Chosen(Offered(env, h.cached), at, vid, pid, i) && got.value.dev == devs[i];
      assert OneMoreHandleOf(h, h', env, i);
    }
  }

  lemma ByIdsRemembers(env: Surroundings, at: Attempts, vid: Id, pid: Id, h: Holding, h': Holding,
                       listed: bool, after: seq<Descriptor>)
    requires listed <==> NoneFails(env, h.cached.Keys, MAX_NUMBER_OF_DEVICES)
    requires listed ==> Remembered(Offered(env, h.cached), at, vid, pid, after)
    requires forall n :: n in h'.cached ==>
               if listed && n in Numbers(env, MAX_NUMBER_OF_DEVICES)
               then h'.cached[n] == after[IndexOf(Numbers(env, MAX_NUMBER_OF_DEVICES), n)]
               else n in h.cached && h'.cached[n] == h.cached[n]
    ensures Remembers(OpenByIds(env, at, vid, pid), h, h')
  {
    hide NoneFails, Offered, Numbers, NoneAtOnce, DescAfter;
  }

  /** The device of a handle that a search by ids has opened has the ids in its descriptor field, byte for byte. */
  lemma OpenedHasIds(env: Surroundings, at: Attempts, vid: Id, pid: Id, h: Holding, h': Holding)
    requires Does(OpenByIds(env, at, vid, pid), h, h') && Remembers(OpenByIds(env, at, vid, pid), h, h')
    requires |h'.handles| > |h.handles| && h'.handles[|h.handles|].dev.devno in h'.cached
    ensures HasIds(h'.cached[h'.handles[|h.handles|].dev.devno], vid, pid)
  {
    var descs, ns := Offered(env, h.cached), Numbers(env, MAX_NUMBER_OF_DEVICES);
    var i: nat :| Chosen(descs, at, vid, pid, i) && OneMoreHandleOf(h, h', env, i);
    NumbersListed(env, MAX_NUMBER_OF_DEVICES);
    hide NoneFails, Offered, Numbers, HasIds, Fetched;
    var n := ns[i];
    assert IndexOf(ns, n) == i;
    var desc := h'.cached[n];
    assert Knows(OpenByIds(env, at, vid, pid), h, n, desc);
    assert HasIds(desc, vid, pid);
  }

  /** The fields after a search by ids. */
  lemma FieldsAfter(before: seq<Device>, was: map<int, Descriptor>, devs: seq<Device>, ns: seq<int>,
                    after: seq<Descriptor>, linked: seq<Device>, now: map<int, Descriptor>)
    requires Keyed(before) && was.Keys == KnownKeys(before) && HaveNumbers(devs, ns) && HaveDescs(devs, after)
    requires forall d :: d in before && d !in devs ==> was[d.devno] == d.desc
    requires forall k :: 0 <= k < |devs| ==> devs[k] in before || devs[k].devno !in was
    requires Caches(linked, now) && forall x :: x in linked ==> x in before || x in devs
    requires Distinct(ns)
    ensures forall n :: n in now ==>
              if n in ns then now[n] == after[IndexOf(ns, n)] else n in was && now[n] == was[n]
  {
    forall n | n in now
      ensures if n in ns then now[n] == after[IndexOf(ns, n)] else n in was && now[n] == was[n]
    {
      assert n in ns ==> devs[IndexOf(ns, n)].devno == n;
      var d :| d in linked && d.devno == n;
      if d in devs {
        assert ns[IndexOf(devs, d)] == n;
      }
    }
  }

  method Copy(list: array<Option<Device>>, count: nat, ghost devs: seq<Device>) returns (mine: seq<Device>)
    requires Terminated(list, devs) && count == |devs|
    ensures mine == devs
  {
    mine := [];
    for k := 0 to count
      invariant mine == devs[..k]
    {
      mine := mine + [list[k].value];
    }
  }

  class Client {
    const ctx: Context
    var lists: seq<array<Option<Device>>>
    var handles: seq<Handle>
    var held: seq<Device>
    var entries: seq<seq<Device>> // what is on the lists

    /** Everything the program holds: list entries, open handles, and references of its own. */
    ghost function Refs(): multiset<Device>
      reads this
    {
      Total(Listed(entries), InUse(handles), multiset(held))
    }

    ghost function Now(): Holding
      reads this, ctx, ctx.devs
    {
      Holding(entries, handles, held, CachedDescs(ctx.devs))
    }

    ghost predicate ListsOk()
      reads this, lists
    {
      |lists| == |entries| && forall i :: 0 <= i < |lists| ==> Terminated(lists[i], entries[i])
    }

    ghost predicate Valid()
      reads this, ctx, ctx.head, ctx.devs, lists
    {
      ctx.Sound(Refs()) && ListsOk()
    }

    constructor ()
      ensures Valid() && fresh(ctx) && ctx.devs == [] && ctx.created == {} && ctx.finalised == []
    {
      ctx := new Context();
      lists, handles, held, entries := [], [], [], [];
      new;
      assert Refs() == multiset{};
    }

    /** What Valid says of the counts, with the three kinds of references told apart. */
    lemma CountsAreReferences(d: Device)
      requires Valid()
      ensures d in ctx.devs <==> d in Listed(entries) || d in InUse(handles) || d in held
      ensures d in ctx.devs ==> d.refCount == Listed(entries)[d] + InUse(handles)[d] + multiset(held)[d]
      ensures d in ctx.created <==> d in ctx.devs || d in ctx.finalised
      ensures !(d in ctx.devs && d in ctx.finalised)
    {
      assert d in ctx.devs <==> d in Refs();
      assert d in held <==> d in multiset(held);
    }

    /** A number and a descriptor are known exactly for the devices that are held. */
    lemma IsConsistent()
      requires Valid()
      ensures Consistent(Now())
    {
      Fields();
      Members(ctx, Refs());
      hide Valid, CachedDescs, Total, Listed, InUse;
      assert Held(Now()) == Refs();
      KnownByNumber(ctx.devs, Now().cached, Refs());
    }

    /** Holding nothing: the list is empty, as libusby_exit asks, and every device has been finalised. */
    lemma NothingHeld()
      requires Valid() && held == [] && handles == [] && forall i :: 0 <= i < |entries| ==> entries[i] == []
      ensures ctx.devs == [] && ctx.head.next == ctx.head
      ensures forall d :: d in ctx.created ==> d in ctx.finalised
    {
      NothingListed(entries);
      FirstIsMember(ctx.devs);
      assert Refs() == multiset{};
      assert forall d :: d in ctx.devs ==> d in Refs();
      assert ([ctx.head] + ctx.devs)[0] == ctx.head;
    }

    lemma WithoutList(i: nat)
      requires i < |entries|
      ensures Refs() == Total(Listed(WithoutAt(entries, i)), InUse(handles), multiset(held)) + multiset(entries[i])
      ensures Refs() == Total(Listed(WithoutAt(entries, i)), InUse(handles), multiset(held + entries[i]))
    {
      ListedWithout(entries, i);
      TotalListed(Listed(WithoutAt(entries, i)), multiset(entries[i]), InUse(handles), multiset(held));
      assert multiset(held + entries[i]) == multiset(held) + multiset(entries[i]);
    }

    lemma WithoutHandle(k: nat)
      requires k < |handles|
      ensures Refs() == Total(Listed(entries), InUse(WithoutAt(handles, k)), multiset(held)) + multiset{handles[k].dev}
    {
      InUseWithout(handles, k);
      TotalInUse(Listed(entries), InUse(WithoutAt(handles, k)), multiset(held), handles[k].dev);
    }

    lemma WithoutOwn(k: nat)
      requires k < |held|
      ensures held[k] in Refs()
      ensures Refs() - multiset{held[k]} == Total(Listed(entries), InUse(handles), multiset(WithoutAt(held, k)))
    {
      HeldWithout(held, k);
      TotalOwn(Listed(entries), InUse(handles), multiset(WithoutAt(held, k)), held[k]);
    }

    // -------------------------------------------------------------- the calls

    /** A list was obtained. */
    method Keep(list: array<Option<Device>>, count: nat, ghost devs: seq<Device>)
      requires ListsOk() && Terminated(list, devs) && count == |devs|
      modifies this`lists, this`entries
      ensures ListsOk() && Refs() == old(Refs()) + multiset(devs) && entries == old(entries) + [devs]
    {
      hide Terminated, Listed, InUse, Total;
      var mine := Copy(list, count, devs);
      ListedOneMore(entries, devs);
      TotalListed(Listed(entries), multiset(devs), InUse(handles), multiset(held));
      lists, entries := lists + [list], entries + [mine];
    }

    /** What is known of the descriptor fields. */
    lemma Fields()
      requires Valid()
      ensures Caches(ctx.devs, Now().cached) && Now().cached.Keys == KnownKeys(ctx.devs) && Keyed(ctx.devs)
    {
      CachesDescs(ctx.devs);
    }

    method ObtainList(env: Surroundings)
      requires Valid()
      modifies this, ctx`devs, ctx`created, ctx`finalised
      modifies ctx.Nodes()`refCount, ctx.Nodes()`next, ctx.Nodes()`prev
      ensures Valid() && old(ctx.finalised) <= ctx.finalised
      ensures forall x :: x in old(ctx.devs) ==> x in ctx.devs
      ensures forall x :: x in ctx.devs ==> x in old(ctx.devs) || (fresh(x) && env.answers(x.devno) == Some(x.desc))
      ensures handles == old(handles) && held == old(held)
      ensures if NoneFails(env, KnownKeys(old(ctx.devs)), MAX_NUMBER_OF_DEVICES)
              then |entries| == |old(entries)| + 1 && old(entries) <= entries
                   && HaveNumbers(entries[|old(entries)|], Numbers(env, MAX_NUMBER_OF_DEVICES))
              else entries == old(entries)
    {
      hide Context.Sound, Refs, Terminated, NoneFails;
      ghost var refs, before := Refs(), ctx.devs;
      Members(ctx, refs);
      var ok, list, count;
      ghost var devs;
      ok, list, count, devs := ListDevices(ctx, env, refs);
      StillLinked(ctx, before, refs, if ok then refs + multiset(devs) else refs);
      if ok {
        Keep(list, count, devs);
      }
    }

    method DoList(env: Surroundings)
      requires Valid()
      modifies this, ctx`devs, ctx`created, ctx`finalised
      modifies ctx.Nodes()`refCount, ctx.Nodes()`next, ctx.Nodes()`prev
      ensures Valid() && old(ctx.finalised) <= ctx.finalised
      ensures forall x :: x in ctx.devs ==> x in old(ctx.devs) || fresh(x)
      ensures Does(List(env), old(Now()), Now()) && Remembers(List(env), old(Now()), Now())
    {
      hide Valid, Caches, CachedDescs, NoneFails, Keyed, HaveNumbers, Numbers, KnownKeys;
      ghost var before, was := ctx.devs, Now().cached;
      Fields();
      ObtainList(env);
      Fields();
      NoneGone(before, was, ctx.devs, Now().cached);
    }

    method ObtainListLinux(found: seq<Linux.Entry>) returns (ghost done: nat)
      requires Valid() && Linux.OncePerScan(found)
      modifies this, ctx`devs, ctx`created, ctx`finalised
      modifies ctx.Nodes()`refCount, ctx.Nodes()`next, ctx.Nodes()`prev
      ensures Valid() && old(ctx.finalised) <= ctx.finalised
      ensures forall x :: x in old(ctx.devs) ==> x in ctx.devs
      ensures forall x :: x in ctx.devs ==> x in old(ctx.devs) || fresh(x)
      ensures Linux.NewDescribed(ctx, found, old(ctx.devs))
      ensures handles == old(handles) && held == old(held) && EndsAt(found, KnownKeys(old(ctx.devs)), done)
      ensures if done < |found| && Linux.Fails(found, KnownKeys(old(ctx.devs)), done) then entries == old(entries)
              else |entries| == |old(entries)| + 1 && old(entries) <= entries
                   && HaveNumbers(entries[|old(entries)|], Linux.Keys(found[..done], KnownKeys(old(ctx.devs))))
    {
      hide Context.Sound, Refs, Terminated;
      ghost var refs, before := Refs(), ctx.devs;
      Members(ctx, refs);
      var ok, list, count;
      ghost var devs;
      ok, list, count, devs, done := Linux.ListDevices(ctx, found, refs);
      StillLinked(ctx, before, refs, if ok then refs + multiset(devs) else refs);
      if ok {
        Keep(list, count, devs);
        assert entries[|old(entries)|] == devs;
      }
    }

    method DoListLinux(found: seq<Linux.Entry>)
      requires Valid() && Linux.OncePerScan(found)
      modifies this, ctx`devs, ctx`created, ctx`finalised
      modifies ctx.Nodes()`refCount, ctx.Nodes()`next, ctx.Nodes()`prev
      ensures Valid() && old(ctx.finalised) <= ctx.finalised
      ensures forall x :: x in ctx.devs ==> x in old(ctx.devs) || fresh(x)
      ensures Does(ListLinux(found), old(Now()), Now()) && Remembers(ListLinux(found), old(Now()), Now())
    {
      hide Valid, Caches, CachedDescs, Keyed, HaveNumbers, KnownKeys, EndsAt, Linux.Fails, Linux.Keys;
      ghost var before, was := ctx.devs, Now().cached;
      Fields();
      ghost var done := ObtainListLinux(found);
      Fields();
      NoneGone(before, was, ctx.devs, Now().cached);
    }

    method DropList(i: nat)
      requires ListsOk() && i < |lists|
      modifies this`lists, this`entries
      ensures ListsOk() && entries == WithoutAt(old(entries), i)
    {
      hide Terminated;
      lists, entries := WithoutAt(lists, i), WithoutAt(entries, i);
    }

    /** The list is given up; without `unref`, the references of its entries stay with the program. */
    method DoFreeList(i: nat, unref: bool)
      requires Valid() && i < |entries|
      modifies this, ctx`devs, ctx`finalised, ctx.Nodes()`refCount, ctx.Nodes()`next, ctx.Nodes()`prev
      ensures Valid() && old(ctx.finalised) <= ctx.finalised
      ensures forall x :: x in ctx.devs ==> x in old(ctx.devs)
      ensures handles == old(handles) && entries == WithoutAt(old(entries), i)
      ensures held == if unref then old(held) else old(held) + old(entries)[i]
    {
      hide Context.Sound, Terminated, Listed, InUse, Total, WithoutAt;
      WithoutList(i);
      ghost var others := Total(Listed(WithoutAt(entries, i)), InUse(handles), multiset(held));
      FreeDeviceList(ctx, lists[i], unref, entries[i], others);
      if !unref {
        held := held + entries[i];
      }
      DropList(i);
    }

    method DoRef(d: Device)
      requires Valid() && d in ctx.devs
      modifies this, ctx`devs, ctx`finalised, ctx.Nodes()`refCount, ctx.Nodes()`next, ctx.Nodes()`prev
      ensures Valid() && old(ctx.finalised) <= ctx.finalised
      ensures forall x :: x in ctx.devs ==> x in old(ctx.devs)
      ensures handles == old(handles) && entries == old(entries) && held == old(held) + [d]
    {
      TotalOwn(Listed(entries), InUse(handles), multiset(held), d);
      hide Context.Sound, Terminated, Listed, InUse, Total;
      ctx.RefDevice(d, Refs());
      assert multiset(held + [d]) == multiset(held) + multiset{d};
      held := held + [d];
    }

    method DropOwn(k: nat)
      requires k < |held|
      modifies this`held
      ensures held == WithoutAt(old(held), k)
      ensures Refs() == Total(Listed(entries), InUse(handles), multiset(WithoutAt(old(held), k)))
    {
      hide Listed, InUse, Total, WithoutAt;
      held := WithoutAt(held, k);
    }

    method DropHandle(k: nat)
      requires k < |handles|
      modifies this`handles
      ensures handles == WithoutAt(old(handles), k)
      ensures Refs() == Total(Listed(entries), InUse(WithoutAt(old(handles), k)), multiset(held))
    {
      hide Listed, InUse, Total, WithoutAt;
      handles := WithoutAt(handles, k);
    }

    method DoUnref(k: nat)
      requires Valid() && k < |held|
      modifies this, ctx`devs, ctx`finalised, ctx.Nodes()`refCount, ctx.Nodes()`next, ctx.Nodes()`prev
      ensures Valid() && old(ctx.finalised) <= ctx.finalised
      ensures forall x :: x in ctx.devs ==> x in old(ctx.devs)
      ensures handles == old(handles) && entries == old(entries) && held == WithoutAt(old(held), k)
    {
      hide Context.Sound, Terminated, Listed, InUse, Total, WithoutAt, Refs;
      WithoutOwn(k);
      ctx.Linkedness(held[k], Refs());
      ctx.UnrefDevice(held[k], Refs());
      DropOwn(k);
    }

    method DoOpen(d: Device, opens: bool)
      requires Valid() && d in ctx.devs
      modifies this, ctx`devs, ctx`finalised, ctx.Nodes()`refCount, ctx.Nodes()`next, ctx.Nodes()`prev
      ensures Valid() && old(ctx.finalised) <= ctx.finalised
      ensures forall x :: x in ctx.devs ==> x in old(ctx.devs)
      ensures entries == old(entries) && held == old(held)
      ensures handles == if opens then old(handles) + [Handle(d)] else old(handles)
    {
      hide Context.Sound, Terminated, Listed, InUse;
      var h := Open(ctx, d, opens, Refs());
      if h.Some? {
        OneMoreHandle(h.value);
      }
    }

    /** A handle was obtained. */
    method OneMoreHandle(h: Handle)
      modifies this`handles
      ensures handles == old(handles) + [h]
      ensures Refs() == old(Refs()) + multiset{h.dev}
    {
      InUseOneMore(handles, h);
      TotalInUse(Listed(entries), InUse(handles), multiset(held), h.dev);
      hide Listed, InUse, Total;
      handles := handles + [h];
    }

    method DoClose(k: nat)
      requires Valid() && k < |handles|
      modifies this, ctx`devs, ctx`finalised, ctx.Nodes()`refCount, ctx.Nodes()`next, ctx.Nodes()`prev
      ensures Valid() && old(ctx.finalised) <= ctx.finalised
      ensures forall x :: x in ctx.devs ==> x in old(ctx.devs)
      ensures entries == old(entries) && held == old(held) && handles == WithoutAt(old(handles), k)
    {
      hide Context.Sound, Terminated, Listed, InUse, Total, WithoutAt, Refs;
      WithoutHandle(k);
      Close(ctx, handles[k], Total(Listed(entries), InUse(WithoutAt(handles, k)), multiset(held)));
      DropHandle(k);
    }

    method Ask(k: nat, q: Request) returns (r: Obtained)
      requires Valid() && k < |handles|
      modifies handles[k].dev`desc
      ensures Valid()
      ensures r == Asked(old(handles[k].dev.desc), q)
      ensures handles[k].dev.desc == Fetched(old(handles[k].dev.desc), q)
    {
      hide Context.Sound, Refs, Terminated, Asked, Fetched;
      r := GetDeviceDescriptor(ctx, handles[k], q, Refs());
    }

    /** libusby_get_device_descriptor, for the device of a handle. */
    method DoGetDescriptor(k: nat, q: Request) returns (r: Option<Obtained>)
      requires Valid()
      modifies ctx.Nodes()`desc
      ensures Valid()
      ensures Does(GetDescriptor(k, q), old(Now()), Now()) && Remembers(GetDescriptor(k, q), old(Now()), Now())
      ensures r == if k >= |handles| then None else Some(Asked(old(handles[k].dev.desc), q))
    {
      hide Valid, CachedDescs, Keyed, KnownKeys, Asked, Fetched;
      Fields();
      if k >= |handles| {
        return None;
      }
      HandleLinked(k);
      ghost var was := Now().cached;
      var got := Ask(k, q);
      Fields();
      OneAsked(handles[k].dev, ctx.devs, was, Now().cached, Fetched(was[handles[k].dev.devno], q));
      return Some(got);
    }

    method ObtainByIds(env: Surroundings, at: Attempts, vid: Id, pid: Id)
      returns (h: Option<Handle>, ghost listed: bool, ghost devs: seq<Device>,
               ghost descs: seq<Descriptor>, ghost after: seq<Descriptor>)
      requires Valid()
      modifies this, ctx`devs, ctx`created, ctx`finalised
      modifies ctx.Nodes()`refCount, ctx.Nodes()`next, ctx.Nodes()`prev, ctx.Nodes()`desc
      ensures Valid() && old(ctx.finalised) <= ctx.finalised
      ensures forall x :: x in ctx.devs ==> x in old(ctx.devs) || (listed && fresh(x) && x in devs)
      ensures entries == old(entries) && held == old(held)
      ensures handles == if h.Some? then old(handles) + [h.value] else old(handles)
      ensures listed <==> NoneFails(env, KnownKeys(old(ctx.devs)), MAX_NUMBER_OF_DEVICES)
      ensures listed ==>
                && HaveNumbers(devs, Numbers(env, MAX_NUMBER_OF_DEVICES)) && |descs| == |devs|
                && HaveDescs(devs, after) && Remembered(descs, at, vid, pid, after)
      ensures listed ==> forall k :: 0 <= k < |devs| ==>
                if devs[k] in old(ctx.devs) then descs[k] == old(devs[k].desc)
                else devs[k].devno !in KnownKeys(old(ctx.devs)) && env.answers(devs[k].devno) == Some(descs[k])
      ensures h.Some? ==>
                listed && exists i: nat :: i < |devs| && Chosen(descs, at, vid, pid, i) && h.value.dev == devs[i]
      ensures listed && h.None? ==> forall i: nat :: !Chosen(descs, at, vid, pid, i)
      ensures forall x :: x in old(ctx.devs) && (listed ==> x !in devs) ==> x.desc == old(x.desc)
    {
      hide Context.Sound, Refs, Terminated, HasIds, NoneFails, Chosen, Remembered, HaveDescs, HaveNumbers, KnownKeys;
      ghost var refs, before := Refs(), ctx.devs;
      Members(ctx, refs);
      h, listed, devs, descs, after := OpenDeviceWithVidPid(ctx, env, at, vid, pid, refs);
      Members(ctx, if h.Some? then refs + multiset{h.value.dev} else refs);
      if h.Some? {
        assert h.value.dev in devs;
        OneMoreHandle(h.value);
      }
    }

    method DoOpenByIds(env: Surroundings, at: Attempts, vid: Id, pid: Id)
      requires Valid()
      modifies this, ctx`devs, ctx`created, ctx`finalised
      modifies ctx.Nodes()`refCount, ctx.Nodes()`next, ctx.Nodes()`prev, ctx.Nodes()`desc
      ensures Valid() && old(ctx.finalised) <= ctx.finalised
      ensures forall x :: x in ctx.devs ==> x in old(ctx.devs) || fresh(x)
      ensures Does(OpenByIds(env, at, vid, pid), old(Now()), Now())
      ensures Remembers(OpenByIds(env, at, vid, pid), old(Now()), Now())
    {
      hide Valid, CachedDescs, HasIds, NoneFails, Chosen, Remembered, Numbers, Does, Remembers, Keyed, HaveDescs;
      Fields();
      ghost var before, was := ctx.devs, Now().cached;
      var h;
      ghost var listed, devs, descs, after;
      h, listed, devs, descs, after := ObtainByIds(env, at, vid, pid);
      Fields();
      if listed {
        NumbersListed(env, MAX_NUMBER_OF_DEVICES);
        ghost var ns := Numbers(env, MAX_NUMBER_OF_DEVICES);
        assert descs == Offered(env, was);
        FieldsAfter(before, was, devs, ns, after, ctx.devs, Now().cached);
      } else {
        NoneNew(before, was, ctx.devs, Now().cached);
      }
      ByIdsDoes(env, at, vid, pid, old(Now()), Now(), listed, h, devs);
      ByIdsRemembers(env, at, vid, pid, old(Now()), Now(), listed, after);
    }

    // -------------------------------------------------------------- runs

    lemma EntryLinked(i: nat, k: nat)
      requires Valid() && i < |entries| && k < |entries[i]|
      ensures entries[i][k] in ctx.devs
    {
      EntryListed(entries, i, k);
      assert entries[i][k] in Refs();
    }

    lemma HandleLinked(k: nat)
      requires Valid() && k < |handles|
      ensures handles[k].dev in ctx.devs
    {
      assert HandleDevs(handles)[k] in InUse(handles);
      assert handles[k].dev in Refs();
    }

    /** Whatever the program can name is linked. */
    lemma NamedLinked(p: Place)
      requires Valid() && Named(entries, handles, held, p).Some?
      ensures Named(entries, handles, held, p).value in ctx.devs
    {
      match p
      case Entry(i, k) => EntryLinked(i, k);
      case Own(k) => assert held[k] in Refs();
      case OfHandle(k) => HandleLinked(k);
    }

    /** A call that makes no new devices and asks none. */
    method PerformHeld(a: Action)
      requires Valid() && (a.FreeList? || a.Ref? || a.Unref? || a.OpenAt? || a.CloseHandle?)
      modifies this, ctx`devs, ctx`finalised, ctx.Nodes()`refCount, ctx.Nodes()`next, ctx.Nodes()`prev
      ensures Valid() && old(ctx.finalised) <= ctx.finalised
      ensures forall x :: x in ctx.devs ==> x in old(ctx.devs)
      ensures Does(a, old(Now()), Now()) && Remembers(a, old(Now()), Now())
    {
      hide Valid, Caches, CachedDescs, Keyed, KnownKeys;
      ghost var before, was := ctx.devs, Now().cached;
      Fields();
      match a {
        case FreeList(i, unref) =>
          if i < |entries| {
            DoFreeList(i, unref);
          }
        case Ref(p) =>
          var d := Named(entries, handles, held, p);
          if d.Some? {
            NamedLinked(p);
            DoRef(d.value);
          }
        case Unref(k) =>
          if k < |held| {
            DoUnref(k);
          }
        case OpenAt(p, opens) =>
          var d := Named(entries, handles, held, p);
          if d.Some? {
            NamedLinked(p);
            DoOpen(d.value, opens);
          }
        case CloseHandle(k) =>
          if k < |handles| {
            DoClose(k);
          }
      }
      Fields();
      NoneNew(before, was, ctx.devs, Now().cached);
    }

    method Perform(a: Action)
      requires Valid() && Reasonable(a)
      modifies this, ctx`devs, ctx`created, ctx`finalised, ctx.Nodes()
      ensures Valid() && old(ctx.finalised) <= ctx.finalised
      ensures forall x :: x in ctx.devs ==> x in old(ctx.devs) || fresh(x)
      ensures Does(a, old(Now()), Now()) && Remembers(a, old(Now()), Now())
    {
      hide Valid, Does, Remembers, Now;
      match a {
        case List(env) => DoList(env);
        case ListLinux(found) => DoListLinux(found);
        case GetDescriptor(k, q) =>
          var r := DoGetDescriptor(k, q);
        case OpenByIds(env, at, vid, pid) => DoOpenByIds(env, at, vid, pid);
        case _ => PerformHeld(a);
      }
    }

    /**
     After any calls in any order the counts are the references, each call did to what the program holds what
     it should, and finalised devices stay finalised.
     */
    method Run(actions: seq<Action>) returns (ghost trace: seq<Holding>)
      requires Valid() && forall k :: 0 <= k < |actions| ==> Reasonable(actions[k])
      modifies this, ctx`devs, ctx`created, ctx`finalised, ctx.Nodes()
      ensures Valid() && old(ctx.finalised) <= ctx.finalised
      ensures |trace| == |actions| + 1 && trace[0] == old(Now()) && trace[|actions|] == Now()
      ensures forall k :: 0 <= k <= |actions| ==> Consistent(trace[k])
      ensures forall k :: 0 <= k < |actions| ==>
                Does(actions[k], trace[k], trace[k + 1]) && Remembers(actions[k], trace[k], trace[k + 1])
    {
      hide Valid, Does, Remembers, Consistent;
      IsConsistent();
      trace := [Now()];
      for k := 0 to |actions|
        invariant Valid() && old(ctx.finalised) <= ctx.finalised
        invariant forall x :: x in ctx.devs ==> x in old(ctx.devs) || fresh(x)
        invariant |trace| == k + 1 && trace[0] == old(Now()) && trace[k] == Now()
        invariant forall j :: 0 <= j <= k ==> Consistent(trace[j])
        invariant forall j :: 0 <= j < k ==>
                    Does(actions[j], trace[j], trace[j + 1]) && Remembers(actions[j], trace[j], trace[j + 1])
      {
        Perform(actions[k]);
        IsConsistent();
        trace := trace + [Now()];
      }
    }
  }

  lemma TotalListed(listed: multiset<Device>, devs: multiset<Device>, inUse: multiset<Device>, own: multiset<Device>)
    ensures Total(listed + devs, inUse, own) == Total(listed, inUse, own) + devs
    ensures Total(listed, inUse, own + devs) == Total(listed, inUse, own) + devs
  {
  }

  lemma TotalInUse(listed: multiset<Device>, inUse: multiset<Device>, own: multiset<Device>, d: Device)
    ensures Total(listed, inUse + multiset{d}, own) == Total(listed, inUse, own) + multiset{d}
  {
  }

  lemma TotalOwn(listed: multiset<Device>, inUse: multiset<Device>, own: multiset<Device>, d: Device)
    ensures Total(listed, inUse, own + multiset{d}) == Total(listed, inUse, own) + multiset{d}
    ensures Total(listed, inUse, own + multiset{d}) - multiset{d} == Total(listed, inUse, own)
    ensures d in Total(listed, inUse, own + multiset{d})
  {
  }

  lemma FirstIsMember(s: seq<Device>)
    ensures s != [] ==> s[0] in s
  {
  }

  lemma {:induction false} NothingListed(entries: seq<seq<Device>>)
    requires forall i :: 0 <= i < |entries| ==> entries[i] == []
    ensures Listed(entries) == multiset{}
  {
    if entries != [] {
      NothingListed(entries[..|entries| - 1]);
    }
  }
}
