/**
 Listing the devices on Linux from the device files themselves (src/os/linux_usbfs.c:286-433): which devices are
 listed, what their caches hold, and what becomes of the memory.
 */
module LinuxEnumeration {
  import opened Options
  import opened Sequences
  import opened ConfigGrammar
  import opened CHeap
  import opened ConfigParser
  import opened DescriptorCache
  import opened DeviceNodes
  import opened DeviceArray
  import opened DeviceRegistry
  import DeviceLists
  import Linux = DeviceListsLinux

  /** A device file that could be opened: its bus and device number, the file, and whether the list may grow for it. */
  datatype OpenFile = OpenFile(key: int, file: DeviceFile, granted: bool)

  /** What an entry of the enumeration says of a file that was read for a new device. */
  ghost predicate Reports(e: Linux.Entry, content: seq<byte>, short: bool, denied: bool) {
    match e.outcome
    case Kept => DeviceBlobs(content).Some?
    case Dropped => short || DeviceBlobs(content).None?
    case NoMem => denied
  }

  /** The cache belongs to the content of a device file: the descriptor, and the blobs after it. */
  ghost predicate CacheOf(cache: CachedDevice, content: seq<byte>)
    reads cache, cache.cache, cache.descriptor
  {
    && DeviceBlobs(content).Some? && cache.Holds(DeviceBlobs(content).value)
    && cache.descriptor[..] == content[..18]
  }

  /** Lines 354-401 for the file of a new device. */
  method ReadNew(heap: Heap, f: OpenFile) returns (e: Linux.Entry, cache: CachedDevice)
    requires heap.Valid() && f.file.Valid()
    modifies heap, f.file
    ensures heap.Valid() && f.file.Valid() && e.key == f.key && e.granted == f.granted
    ensures fresh(cache) && fresh(cache.cache) && fresh(cache.descriptor)
    ensures heap.denied >= old(heap.denied) && f.file.shortfalls >= old(f.file.shortfalls)
    ensures Reports(e, old(f.file.Rest()), f.file.shortfalls > old(f.file.shortfalls), heap.denied > old(heap.denied))
    ensures e.outcome.Kept? ==>
              CacheOf(cache, old(f.file.Rest())) && e.desc == cache.descriptor[..]
              && heap.live == old(heap.live) + OwnedPtr(cache.block)
    ensures !e.outcome.Kept? ==> heap.live == old(heap.live)
  {
    cache := new CachedDevice();
    var outcome := cache.Enumerate(heap, f.file);
    e := Linux.Entry(f.key, outcome, cache.descriptor[..], f.granted);
  }

  /** Lines 333-401: the file is read if no device with its number is linked. */
  method Look(ctx: Context, heap: Heap, f: OpenFile) returns (e: Linux.Entry, cache: CachedDevice, isNew: bool)
    requires ctx.Linked() && heap.Valid() && f.file.Valid()
    modifies heap, f.file
    ensures heap.Valid() && f.file.Valid() && e.key == f.key && e.granted == f.granted
    ensures fresh(cache) && fresh(cache.cache) && fresh(cache.descriptor)
    ensures heap.denied >= old(heap.denied) && f.file.shortfalls >= old(f.file.shortfalls)
    ensures isNew <==> forall x :: x in ctx.devs ==> x.devno != f.key
    ensures isNew ==>
              Reports(e, old(f.file.Rest()), f.file.shortfalls > old(f.file.shortfalls), heap.denied > old(heap.denied))
    ensures isNew && e.outcome.Kept? ==>
              && CacheOf(cache, old(f.file.Rest())) && e.desc == cache.descriptor[..]
              && heap.live == old(heap.live) + OwnedPtr(cache.block)
    ensures !isNew || !e.outcome.Kept? ==> heap.live == old(heap.live)
  {
    var found := ctx.FindDevice(f.key);
    isNew := found.None?;
    if isNew {
      e, cache := ReadNew(heap, f);
    } else {
      cache := new CachedDevice();
      e := Linux.Entry(f.key, Dropped, cache.descriptor[..], f.granted);
    }
  }

  // ---------------------------------------------------------------- the whole enumeration

  function Files(files: seq<OpenFile>): set<DeviceFile> {
    set f | f in files :: f.file
  }

  /** The files are different objects, for different devices. */
  ghost predicate Different(files: seq<OpenFile>) {
    forall i, j :: 0 <= i < j < |files| ==> files[i].key != files[j].key && files[i].file != files[j].file
  }

  /** From the k-th on, the files are at their beginning. */
  ghost predicate Unread(files: seq<OpenFile>, contents: seq<seq<byte>>, shorts: seq<nat>, k: nat)
    reads Files(files)
  {
    && |contents| == |shorts| == |files|
    && forall i :: k <= i < |files| ==>
         files[i].file.Valid() && files[i].file.Rest() == contents[i] && files[i].file.shortfalls == shorts[i]
  }

  /** The files of which it is said have given less than they hold. */
  ghost predicate FellShort(files: seq<OpenFile>, shorts: seq<nat>, short: seq<bool>)
    reads Files(files)
  {
    |short| <= |files| == |shorts| && forall i :: 0 <= i < |short| && short[i] ==> files[i].file.shortfalls > shorts[i]
  }

  /** The entries are those of the first files; what they say of new devices is true. */
  ghost predicate Truthful(entries: seq<Linux.Entry>, files: seq<OpenFile>, contents: seq<seq<byte>>, known: set<int>,
                           short: seq<bool>, denied: bool)
  {
    && |entries| == |short| <= |files| == |contents|
    && forall i :: 0 <= i < |entries| ==>
         && entries[i].key == files[i].key && entries[i].granted == files[i].granted
         && (entries[i].key !in known ==> Reports(entries[i], contents[i], short[i], denied))
  }

  /** Each cache is from the file of its device. */
  ghost predicate Cached(caches: seq<CachedDevice>, origins: seq<nat>, contents: seq<seq<byte>>)
    reads caches, set c | c in caches :: c.cache, set c | c in caches :: c.descriptor
  {
    && |caches| == |origins|
    && forall j :: 0 <= j < |caches| ==> origins[j] < |contents| && CacheOf(caches[j], contents[origins[j]])
  }

  ghost predicate BlocksOf(blocks: seq<Option<Ptr>>, caches: seq<CachedDevice>)
    reads caches
  {
    |blocks| == |caches| && forall j :: 0 <= j < |caches| ==> blocks[j] == caches[j].block
  }

  /** The new devices are, once each, the listed devices that were not linked before. */
  ghost predicate NewlyListed(added: seq<Device>, devs: seq<Device>, before: seq<Device>) {
    && Distinct(added) && (forall d :: d in added ==> d in devs && d !in before)
    && (forall d :: d in devs ==> d in before || d in added)
  }

  /** The newly listed devices have the numbers of their files, and the descriptors at the beginning of these. */
  ghost predicate Described(added: seq<Device>, origins: seq<nat>, files: seq<OpenFile>, contents: seq<seq<byte>>)
    reads added`desc
  {
    && |added| == |origins| && |contents| == |files|
    && forall j :: 0 <= j < |added| ==>
         && origins[j] < |contents| && |contents[origins[j]]| >= 18
         && added[j].desc == contents[origins[j]][..18] && added[j].devno == files[origins[j]].key
  }

  function Blocks(blocks: seq<Option<Ptr>>): multiset<Ptr> {
    if blocks == [] then multiset{} else Blocks(blocks[..|blocks| - 1]) + OwnedPtr(blocks[|blocks| - 1])
  }

  lemma BlocksAppend(blocks: seq<Option<Ptr>>, block: Option<Ptr>)
    ensures Blocks(blocks + [block]) == Blocks(blocks) + OwnedPtr(block)
  {
    assert (blocks + [block])[..|blocks|] == blocks;
  }

  lemma {:induction false} BlocksPrefix(blocks: seq<Option<Ptr>>, k: nat)
    requires k < |blocks|
    ensures Blocks(blocks[..k + 1]) == Blocks(blocks[..k]) + OwnedPtr(blocks[k])
    ensures Blocks(blocks[..k + 1]) <= Blocks(blocks)
    decreases |blocks|
  {
    assert blocks[..k + 1][..k] == blocks[..k];
    if k + 1 == |blocks| {
      assert blocks[..k + 1] == blocks;
    } else {
      BlocksPrefix(blocks[..|blocks| - 1], k);
      assert blocks[..|blocks| - 1][..k + 1] == blocks[..k + 1];
    }
  }

  /** usbyb_finalize_device for the new devices of a list that is given back: their caches are freed. */
  method FreeCaches(heap: Heap, blocks: seq<Option<Ptr>>)
    requires heap.Valid() && Blocks(blocks) <= heap.live
    modifies heap`live
    ensures heap.Valid() && heap.live + Blocks(blocks) == old(heap.live)
  {
    ghost var start := heap.live;
    var j := 0;
    assert Blocks(blocks[..0]) == multiset{};
    hide Blocks, OwnedPtr;
    while j < |blocks|
      invariant 0 <= j <= |blocks| && heap.Valid()
      invariant heap.live + Blocks(blocks[..j]) == start
    {
      BlocksPrefix(blocks, j);
      StillLive(heap.live, Blocks(blocks[..j]), OwnedPtr(blocks[j]), start);
      FreePtr(heap, blocks[j]);
      j := j + 1;
    }
    assert blocks[..j] == blocks;
  }

  /** usbyb_finalize_device for a new device that is not listed. */
  method DropCache(heap: Heap, ghost start: multiset<Ptr>, block: Option<Ptr>)
    requires heap.Valid() && heap.live == start + OwnedPtr(block)
    modifies heap`live
    ensures heap.Valid() && heap.live == start
  {
    hide Heap.Valid;
    FreePtr(heap, block);
    Cancel(heap.live, start, OwnedPtr(block));
  }

  lemma StillOnce(files: seq<OpenFile>, entries: seq<Linux.Entry>, e: Linux.Entry)
    requires |entries| < |files| && e.key == files[|entries|].key
    requires forall i :: 0 <= i < |entries| ==> entries[i].key == files[i].key
    requires forall i, j :: 0 <= i < j < |files| ==> files[i].key != files[j].key
    ensures Linux.OncePerScan(entries + [e]) && (entries + [e])[..|entries|] == entries
    ensures (entries + [e])[..|entries| + 1] == entries + [e]
  {
  }

  /** One file: it is read if need be, and its device listed, skipped, or the end of the list. */
  method Turn(ctx: Context, heap: Heap, files: seq<OpenFile>, k: nat, entries: seq<Linux.Entry>,
              devlist: DeviceList<Device>,
              ghost before: seq<Device>, ghost devs: seq<Device>, ghost refs: multiset<Device>)
    returns (turn: Linux.Turn, e: Linux.Entry, cache: CachedDevice, isNew: bool, ghost devs': seq<Device>)
    requires ctx.Sound(refs + multiset(devs)) && devlist.Valid() && devlist.Contents() == devs && heap.Valid()
    requires k == |entries| < |files| && files[k].file.Valid() && DeviceLists.Referred(before, refs)
    requires forall i :: 0 <= i < k ==> entries[i].key == files[i].key
    requires forall i, j :: 0 <= i < j < |files| ==> files[i].key != files[j].key
    requires DeviceLists.HaveNumbers(devs, Linux.Keys(entries, DeviceLists.KnownKeys(before)))
    modifies ctx`devs, ctx`created, ctx`finalised, ctx.Nodes()`refCount, ctx.Nodes()`next, ctx.Nodes()`prev
    modifies devlist, devlist.list, heap, files[k].file
    ensures devlist.Valid() && (devlist.list == old(devlist.list) || fresh(devlist.list)) && heap.Valid()
    ensures forall x :: x in ctx.devs ==> x in old(ctx.devs) || fresh(x)
    ensures ctx.Sound(refs + multiset(devs')) && devlist.Contents() == devs'
    ensures e.key == files[k].key && e.granted == files[k].granted
    ensures (isNew <==> e.key !in DeviceLists.KnownKeys(before))
    ensures fresh(cache) && fresh(cache.cache) && fresh(cache.descriptor)
    ensures heap.denied >= old(heap.denied) && files[k].file.Valid()
    ensures isNew ==>
              Reports(e, old(files[k].file.Rest()), files[k].file.shortfalls > old(files[k].file.shortfalls),
                      heap.denied > old(heap.denied))
    ensures turn.CutShort? <==> Linux.Stops(entries + [e], DeviceLists.KnownKeys(before), k)
    ensures turn.Denied? <==> Linux.Fails(entries + [e], DeviceLists.KnownKeys(before), k)
    ensures turn.Listed? || turn.Skipped? ==>
              DeviceLists.HaveNumbers(devs', Linux.Keys(entries + [e], DeviceLists.KnownKeys(before)))
    ensures turn.Listed? <==> devs' != devs
    ensures turn.Listed? ==> |devs'| == |devs| + 1 && devs'[..|devs|] == devs && devs'[|devs|].devno == e.key
    ensures turn.Listed? && !isNew ==> devs'[|devs|] in old(ctx.devs)
    ensures turn.Listed? && isNew ==>
              && CacheOf(cache, old(files[k].file.Rest())) && devs'[|devs|].desc == old(files[k].file.Rest())[..18]
              && fresh(devs'[|devs|]) && heap.live == old(heap.live) + OwnedPtr(cache.block)
    ensures !turn.Listed? || !isNew ==> heap.live == old(heap.live)
    ensures old(ctx.finalised) <= ctx.finalised
  {
    hide Context.Sound, DeviceList.Valid, DeviceLists.Referred, Linux.Stops, Linux.Fails, CacheOf, Reports, OwnedPtr;
    hide DeviceLists.KnownKeys, DeviceLists.HaveNumbers, Linux.Keys, Heap.Valid, Linux.OncePerScan;
    ghost var start := heap.live;
    LinkedPart(ctx, refs + multiset(devs));
    e, cache, isNew := Look(ctx, heap, files[k]);
    var seen := entries + [e];
    StillOnce(files, entries, e);
    Linux.Linkage(ctx, before, refs, devs, seen, k);
    turn, devs' := Linux.Next(ctx, seen, k, devlist, before, devs, refs);
    if isNew && e.outcome.Kept? && !turn.Listed? {
      DropCache(heap, start, cache.block);
    }
  }

  lemma LinkedPart(ctx: Context, refs: multiset<Device>)
    requires ctx.Sound(refs)
    ensures ctx.Linked()
  {
  }

  // ---------------------------------------------------------------- one more file

  /** What the enumeration has gathered: a cache, with its block, for each new device on the list. */
  datatype Gathered = Gathered(entries: seq<Linux.Entry>, caches: seq<CachedDevice>, blocks: seq<Option<Ptr>>)

  lemma DifferentFacts(files: seq<OpenFile>, k: nat)
    requires Different(files) && k < |files|
    ensures forall i :: 0 <= i < |files| && i != k ==> files[i].file != files[k].file
    ensures forall i, j :: 0 <= i < j < |files| ==> files[i].key != files[j].key
  {
  }

  lemma TruthfulStep(entries: seq<Linux.Entry>, files: seq<OpenFile>, contents: seq<seq<byte>>, known: set<int>,
                     short: seq<bool>, denied: bool, e: Linux.Entry, fell: bool, denied': bool)
    requires Truthful(entries, files, contents, known, short, denied) && |entries| < |files|
    requires e.key == files[|entries|].key && e.granted == files[|entries|].granted
    requires e.key !in known ==> Reports(e, contents[|entries|], fell, denied')
    ensures Truthful(entries + [e], files, contents, known, short + [fell], denied || denied')
  {
  }

  lemma CachedStep(caches: seq<CachedDevice>, blocks: seq<Option<Ptr>>, origins: seq<nat>, contents: seq<seq<byte>>,
                   cache: CachedDevice, k: nat)
    requires Cached(caches, origins, contents) && BlocksOf(blocks, caches)
    requires k < |contents| && CacheOf(cache, contents[k])
    ensures Cached(caches + [cache], origins + [k], contents) && BlocksOf(blocks + [cache.block], caches + [cache])
  {
    hide CacheOf;
  }

  lemma DescribedStep(added: seq<Device>, origins: seq<nat>, files: seq<OpenFile>, contents: seq<seq<byte>>,
                      d: Device, k: nat)
    requires Described(added, origins, files, contents) && k < |contents| && |contents[k]| >= 18
    requires d.desc == contents[k][..18] && d.devno == files[k].key
    ensures Described(added + [d], origins + [k], files, contents)
  {
  }

  lemma CacheIsLong(cache: CachedDevice, content: seq<byte>)
    requires CacheOf(cache, content)
    ensures |content| >= 18
  {
  }

  lemma StillUnread(files: seq<OpenFile>, contents: seq<seq<byte>>, shorts: seq<nat>, k: nat)
    requires Unread(files, contents, shorts, k) && k < |files|
    ensures |contents| == |shorts| == |files| && files[k].file.Valid()
    ensures files[k].file.Rest() == contents[k] && files[k].file.shortfalls == shorts[k]
  {
  }

  /** All that is gathered, with a new device and its cache. */
  lemma NewStep(g: Gathered, origins: seq<nat>, files: seq<OpenFile>, contents: seq<seq<byte>>, added: seq<Device>,
                d: Device, cache: CachedDevice, k: nat, base: multiset<Ptr>)
    requires Cached(g.caches, origins, contents) && BlocksOf(g.blocks, g.caches)
    requires Described(added, origins, files, contents) && k < |contents| == |files| && CacheOf(cache, contents[k])
    requires d.desc == contents[k][..18] && d.devno == files[k].key
    ensures Cached(g.caches + [cache], origins + [k], contents)
    ensures BlocksOf(g.blocks + [cache.block], g.caches + [cache])
    ensures Described(added + [d], origins + [k], files, contents)
    ensures base + Blocks(g.blocks + [cache.block]) == base + Blocks(g.blocks) + OwnedPtr(cache.block)
  {
    hide Cached, Described, CacheOf, BlocksOf, Blocks, OwnedPtr;
    CachedStep(g.caches, g.blocks, origins, contents, cache, k);
    CacheIsLong(cache, contents[k]);
    DescribedStep(added, origins, files, contents, d, k);
    BlocksAppend(g.blocks, cache.block);
  }

  lemma LinkedAre(ctx: Context, before: seq<Device>, refs: multiset<Device>, devs: seq<Device>)
    requires ctx.Sound(refs + multiset(devs)) && DeviceLists.Referred(before, refs)
    ensures forall x :: x in ctx.devs ==> x in before || x in devs
  {
  }

  lemma ListedStep(devs: seq<Device>, devs': seq<Device>, before: seq<Device>, added: seq<Device>,
                   linked: seq<Device>, isNew: bool)
    requires NewlyListed(added, devs, before) && |devs'| == |devs| + 1 && devs'[..|devs|] == devs
    requires forall x :: x in linked ==> x in before || x in devs
    requires if isNew then devs'[|devs|] !in before && devs'[|devs|] !in devs else devs'[|devs|] in linked
    ensures NewlyListed(if isNew then added + [devs'[|devs|]] else added, devs', before)
  {
    assert devs' == devs + [devs'[|devs|]];
  }

  lemma Begin(ctx: Context, files: seq<OpenFile>, contents: seq<seq<byte>>, refs: multiset<Device>, shorts: seq<nat>)
    requires ctx.Sound(refs) && |shorts| == |files| == |contents|
    ensures FellShort(files, shorts, [])
    ensures refs + multiset([]) == refs && DeviceLists.Referred(ctx.devs, refs)
    ensures DeviceLists.HaveNumbers([], Linux.Keys([], DeviceLists.KnownKeys(ctx.devs)))
    ensures Truthful([], files, contents, DeviceLists.KnownKeys(ctx.devs), [], false)
    ensures Cached([], [], contents) && Described([], [], files, contents)
    ensures BlocksOf([], []) && Blocks([]) == multiset{}
    ensures NewlyListed([], [], ctx.devs) && Linux.GoesOn([], DeviceLists.KnownKeys(ctx.devs), 0)
  {
  }

  lemma Lasting(entries: seq<Linux.Entry>, e: Linux.Entry, known: set<int>)
    requires Linux.GoesOn(entries, known, |entries|)
    ensures Linux.GoesOn(entries + [e], known, |entries|)
  {
    forall k | 0 <= k < |entries|
      ensures !Linux.Stops(entries + [e], known, k) && !Linux.Fails(entries + [e], known, k)
    {
      assert (entries + [e])[..k] == entries[..k];
      assert !Linux.Stops(entries, known, k) && !Linux.Fails(entries, known, k);
    }
  }

  // ---------------------------------------------------------------- all files

  /** One file, seen from the whole enumeration. */
  method Step(ctx: Context, heap: Heap, files: seq<OpenFile>, g: Gathered, devlist: DeviceList<Device>,
              ghost contents: seq<seq<byte>>, ghost shorts: seq<nat>, ghost short: seq<bool>, ghost denied: bool,
              ghost base: multiset<Ptr>, ghost before: seq<Device>, ghost refs: multiset<Device>,
              ghost devs: seq<Device>, ghost added: seq<Device>, ghost origins: seq<nat>)
    returns (turn: Linux.Turn, g': Gathered, ghost fell: bool,
             ghost devs': seq<Device>, ghost added': seq<Device>, ghost origins': seq<nat>)
    requires ctx.Sound(refs + multiset(devs)) && devlist.Valid() && devlist.Contents() == devs && heap.Valid()
    requires DeviceLists.Referred(before, refs) && NewlyListed(added, devs, before)
    requires |g.entries| < |files| && Different(files) && Unread(files, contents, shorts, |g.entries|)
    requires FellShort(files, shorts, short) && heap.live == base + Blocks(g.blocks)
    requires Truthful(g.entries, files, contents, DeviceLists.KnownKeys(before), short, denied)
    requires DeviceLists.HaveNumbers(devs, Linux.Keys(g.entries, DeviceLists.KnownKeys(before)))
    requires Cached(g.caches, origins, contents)
    requires Described(added, origins, files, contents) && BlocksOf(g.blocks, g.caches)
    requires Linux.GoesOn(g.entries, DeviceLists.KnownKeys(before), |g.entries|)
    modifies ctx`devs, ctx`created, ctx`finalised, ctx.Nodes()`refCount, ctx.Nodes()`next, ctx.Nodes()`prev
    modifies devlist, devlist.list, heap, files[|g.entries|].file
    ensures devlist.Valid() && (devlist.list == old(devlist.list) || fresh(devlist.list)) && heap.Valid()
    ensures forall x :: x in ctx.devs ==> x in old(ctx.devs) || fresh(x)
    ensures ctx.Sound(refs + multiset(devs')) && devlist.Contents() == devs' && old(ctx.finalised) <= ctx.finalised
    ensures |g'.entries| == |g.entries| + 1 && g'.entries[..|g.entries|] == g.entries
    ensures Unread(files, contents, shorts, |g'.entries|) && FellShort(files, shorts, short + [fell])
    ensures heap.denied >= old(heap.denied) && heap.live == base + Blocks(g'.blocks)
    ensures Truthful(g'.entries, files, contents, DeviceLists.KnownKeys(before), short + [fell],
                     denied || heap.denied > old(heap.denied))
    ensures Cached(g'.caches, origins', contents)
    ensures Described(added', origins', files, contents) && BlocksOf(g'.blocks, g'.caches)
    ensures NewlyListed(added', devs', before)
    ensures turn.CutShort? <==> Linux.Stops(g'.entries, DeviceLists.KnownKeys(before), |g.entries|)
    ensures turn.Denied? <==> Linux.Fails(g'.entries, DeviceLists.KnownKeys(before), |g.entries|)
    ensures Linux.GoesOn(g'.entries, DeviceLists.KnownKeys(before), |g.entries|)
    ensures turn.CutShort? || turn.Denied? ==> devs' == devs
    ensures turn.Listed? || turn.Skipped? ==>
              && DeviceLists.HaveNumbers(devs', Linux.Keys(g'.entries, DeviceLists.KnownKeys(before)))
              && Linux.GoesOn(g'.entries, DeviceLists.KnownKeys(before), |g'.entries|)
  {
    hide Context.Sound, DeviceList.Valid, Heap.Valid, DeviceLists.Referred;
    hide NewlyListed, Different, Truthful, Blocks, Reports;
    hide DeviceLists.HaveNumbers, DeviceLists.KnownKeys, Linux.Keys, Cached, CacheOf, Described, BlocksOf, OwnedPtr;
    hide Linux.GoesOn, Linux.Stops, Linux.Fails, DeviceFile.Valid;
    var k := |g.entries|;
    StillUnread(files, contents, shorts, k);
    ghost var known := DeviceLists.KnownKeys(before);
    DifferentFacts(files, k);
    SameKeys(g.entries, files, contents, known, short, denied);
    LinkedAre(ctx, before, refs, devs);
    var e, cache, isNew;
    turn, e, cache, isNew, devs' := Turn(ctx, heap, files, k, g.entries, devlist, before, devs, refs);
    fell := files[k].file.shortfalls > shorts[k];
    TruthfulStep(g.entries, files, contents, known, short, denied, e, fell, heap.denied > old(heap.denied));
    Lasting(g.entries, e, known);
    Linux.EndStep(g.entries + [e], known, k);
    g' := g.(entries := g.entries + [e]);
    added', origins' := added, origins;
    if turn.Listed? {
      ListedStep(devs, devs', before, added, old(ctx.devs), isNew);
      if isNew {
        NewStep(g, origins, files, contents, added, devs'[|devs|], cache, k, base);
        g' := Gathered(g.entries + [e], g.caches + [cache], g.blocks + [cache.block]);
        added', origins' := added + [devs'[|devs|]], origins + [k];
      }
    }
  }

  lemma SameKeys(entries: seq<Linux.Entry>, files: seq<OpenFile>, contents: seq<seq<byte>>, known: set<int>,
                 short: seq<bool>, denied: bool)
    requires Truthful(entries, files, contents, known, short, denied)
    ensures forall i :: 0 <= i < |entries| ==> i < |files| && entries[i].key == files[i].key
    ensures |short| == |entries| && |contents| == |files|
  {
  }

  /** The loops over the files, up to the first that ends them; the last entry is that one, if there is one. */
  method Scan(ctx: Context, heap: Heap, files: seq<OpenFile>, devlist: DeviceList<Device>,
              ghost contents: seq<seq<byte>>, ghost shorts: seq<nat>, ghost refs: multiset<Device>)
    returns (turn: Linux.Turn, g: Gathered, done: nat, ghost short: seq<bool>,
             ghost devs: seq<Device>, ghost added: seq<Device>, ghost origins: seq<nat>)
    requires ctx.Sound(refs) && devlist.Valid() && devlist.Contents() == [] && heap.Valid()
    requires Different(files) && Unread(files, contents, shorts, 0)
    modifies ctx`devs, ctx`created, ctx`finalised, ctx.Nodes()`refCount, ctx.Nodes()`next, ctx.Nodes()`prev
    modifies devlist, devlist.list, heap, Files(files)
    ensures devlist.Valid() && (devlist.list == old(devlist.list) || fresh(devlist.list)) && heap.Valid()
    ensures forall x :: x in ctx.devs ==> x in old(ctx.devs) || fresh(x)
    ensures ctx.Sound(refs + multiset(devs)) && devlist.Contents() == devs && old(ctx.finalised) <= ctx.finalised
    ensures FellShort(files, shorts, short) && heap.live == old(heap.live) + Blocks(g.blocks)
    ensures Truthful(g.entries, files, contents, DeviceLists.KnownKeys(old(ctx.devs)), short,
                     heap.denied > old(heap.denied))
    ensures Cached(g.caches, origins, contents)
    ensures Described(added, origins, files, contents) && BlocksOf(g.blocks, g.caches)
    ensures NewlyListed(added, devs, old(ctx.devs))
    ensures done <= |g.entries| <= |files| && |g.entries| == (if done < |files| then done + 1 else done)
    ensures DeviceLists.HaveNumbers(devs, Linux.Keys(g.entries[..done], DeviceLists.KnownKeys(old(ctx.devs))))
    ensures Linux.GoesOn(g.entries, DeviceLists.KnownKeys(old(ctx.devs)), done)
    ensures turn.CutShort? <==> done < |files| && Linux.Stops(g.entries, DeviceLists.KnownKeys(old(ctx.devs)), done)
    ensures turn.Denied? <==> done < |files| && Linux.Fails(g.entries, DeviceLists.KnownKeys(old(ctx.devs)), done)
    ensures done < |files| <==> turn.CutShort? || turn.Denied?
  {
    hide Context.Sound, DeviceList.Valid, Heap.Valid, DeviceLists.Referred;
    hide NewlyListed, Different, Truthful, Blocks, Unread;
    hide DeviceLists.HaveNumbers, DeviceLists.KnownKeys, Linux.Keys, Cached, Described, BlocksOf, FellShort;
    hide Linux.GoesOn, Linux.Stops, Linux.Fails;
    turn, g, short, devs, added, origins := Linux.Listed, Gathered([], [], []), [], [], [], [];
    ghost var before, known := ctx.devs, DeviceLists.KnownKeys(ctx.devs);
    Lengths(files, contents, shorts, 0);
    Begin(ctx, files, contents, refs, shorts);
    done := 0;
    while done < |files|
      invariant done == |g.entries| <= |files| && (turn.Listed? || turn.Skipped?)
      invariant devlist.Valid() && (devlist.list == old(devlist.list) || fresh(devlist.list)) && heap.Valid()
      invariant forall x :: x in ctx.devs ==> x in old(ctx.devs) || fresh(x)
      invariant ctx.Sound(refs + multiset(devs)) && devlist.Contents() == devs && old(ctx.finalised) <= ctx.finalised
      invariant Unread(files, contents, shorts, done) && FellShort(files, shorts, short)
      invariant heap.denied >= old(heap.denied) && heap.live == old(heap.live) + Blocks(g.blocks)
      invariant Truthful(g.entries, files, contents, known, short, heap.denied > old(heap.denied))
      invariant Cached(g.caches, origins, contents)
      invariant Described(added, origins, files, contents) && BlocksOf(g.blocks, g.caches)
      invariant DeviceLists.Referred(before, refs) && NewlyListed(added, devs, before)
      invariant DeviceLists.HaveNumbers(devs, Linux.Keys(g.entries, known)) && Linux.GoesOn(g.entries, known, done)
    {
      ghost var fell;
      turn, g, fell, devs, added, origins :=
        Step(ctx, heap, files, g, devlist, contents, shorts, short, heap.denied > old(heap.denied), old(heap.live),
             before, refs, devs, added, origins);
      short := short + [fell];
      if turn.CutShort? || turn.Denied? {
        return;
      }
      done := done + 1;
    }
    assert g.entries[..done] == g.entries;
  }

  lemma Lengths(files: seq<OpenFile>, contents: seq<seq<byte>>, shorts: seq<nat>, k: nat)
    requires Unread(files, contents, shorts, k)
    ensures |contents| == |shorts| == |files|
  {
  }

  /** What is still to be read from each file. */
  ghost function ContentsOf(files: seq<OpenFile>): (r: seq<seq<byte>>)
    requires forall i :: 0 <= i < |files| ==> files[i].file.Valid()
    reads set f | f in files :: f.file
    ensures |r| == |files| && forall i :: 0 <= i < |files| ==> r[i] == files[i].file.Rest()
  {
    if files == [] then [] else [files[0].file.Rest()] + ContentsOf(files[1..])
  }

  ghost function ShortsOf(files: seq<OpenFile>): (r: seq<nat>)
    reads Files(files)
    ensures |r| == |files| && forall i :: 0 <= i < |files| ==> r[i] == files[i].file.shortfalls
  {
    if files == [] then [] else [files[0].file.shortfalls] + ShortsOf(files[1..])
  }

  /**
   usbyb_get_device_list on Linux, with the files. Each device on the list that was not linked before has the
   descriptor at the beginning of its file, and a cache that holds exactly the blobs of that file; the caches are
   all that has been allocated and is kept. What ends the enumeration, and how, is as in DeviceListsLinux.
   */
  method ListDevices(ctx: Context, heap: Heap, files: seq<OpenFile>, ghost refs: multiset<Device>)
    returns (ok: bool, list: array<Option<Device>>, count: nat, g: Gathered, done: nat,
             ghost short: seq<bool>, ghost devs: seq<Device>, ghost added: seq<Device>, ghost origins: seq<nat>)
    requires ctx.Sound(refs) && heap.Valid() && Different(files)
    requires forall i :: 0 <= i < |files| ==> files[i].file.Valid()
    modifies ctx`devs, ctx`created, ctx`finalised, ctx.Nodes()`refCount, ctx.Nodes()`next, ctx.Nodes()`prev
    modifies heap, Files(files)
    ensures FellShort(files, old(ShortsOf(files)), short)
    ensures Truthful(g.entries, files, old(ContentsOf(files)), DeviceLists.KnownKeys(old(ctx.devs)), short,
                     heap.denied > old(heap.denied))
    ensures done <= |g.entries| <= |files| && |g.entries| == (if done < |files| then done + 1 else done)
    ensures Linux.GoesOn(g.entries, DeviceLists.KnownKeys(old(ctx.devs)), done)
    ensures !ok <==> done < |files| && Linux.Fails(g.entries, DeviceLists.KnownKeys(old(ctx.devs)), done)
    ensures ok && done < |files| <==>
            done < |files| && Linux.Stops(g.entries, DeviceLists.KnownKeys(old(ctx.devs)), done)
    ensures ok ==>
              && ctx.Sound(refs + multiset(devs)) && DeviceLists.Terminated(list, devs) && count == |devs|
              && DeviceLists.HaveNumbers(devs, Linux.Keys(g.entries[..done], DeviceLists.KnownKeys(old(ctx.devs))))
              && NewlyListed(added, devs, old(ctx.devs)) && Described(added, origins, files, old(ContentsOf(files)))
              && Cached(g.caches, origins, old(ContentsOf(files))) && BlocksOf(g.blocks, g.caches)
              && heap.live == old(heap.live) + Blocks(g.blocks)
    ensures !ok ==> ctx.Sound(refs) && heap.live == old(heap.live)
    ensures heap.Valid() && old(ctx.finalised) <= ctx.finalised
  {
    hide Context.Sound, DeviceList.Valid, Heap.Valid, NewlyListed, Different, Truthful, Blocks, Unread, FellShort;
    hide DeviceLists.HaveNumbers, DeviceLists.KnownKeys, DeviceLists.Terminated;
    hide Linux.Keys, Cached, Described, BlocksOf;
    hide Linux.GoesOn, Linux.Stops, Linux.Fails;
    ghost var contents, shorts, base := ContentsOf(files), ShortsOf(files), heap.live;
    AllUnread(files);
    var devlist := new DeviceList<Device>();
    var turn;
    turn, g, done, short, devs, added, origins := Scan(ctx, heap, files, devlist, contents, shorts, refs);
    DeviceLists.ListTerminated(devlist);
    ok, list, count := !turn.Denied?, devlist.list, devlist.count;
    if turn.Denied? {
      DeviceLists.FreeDeviceList(ctx, devlist.list, true, devs, refs);
      AllOf(base, Blocks(g.blocks));
      FreeCaches(heap, g.blocks);
      Cancel(heap.live, base, Blocks(g.blocks));
    }
  }

  lemma AllUnread(files: seq<OpenFile>)
    requires forall i :: 0 <= i < |files| ==> files[i].file.Valid()
    ensures Unread(files, ContentsOf(files), ShortsOf(files), 0)
  {
  }

  lemma AllOf(base: multiset<Ptr>, blocks: multiset<Ptr>)
    ensures blocks <= base + blocks
  {
  }
}
