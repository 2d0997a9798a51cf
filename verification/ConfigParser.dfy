/**
 usbyi_sanitize_config_descriptor and libusby_free_config_descriptor with their allocations
 (src/libusby.c:519-616, 668-692).
 */
module ConfigParser {
  import opened Options
  import opened ConfigGrammar
  import opened CHeap

  /** A setting in memory; `endpoint` is the array with room for as many endpoints as the header announces. */
  datatype CAlt = CAlt(header: seq<byte>, endpoint: Option<Ptr>, endpoints: seq<seq<byte>>)

  datatype CInterface = CInterface(altsetting: Option<Ptr>, alts: seq<CAlt>)

  datatype CConfig = CConfig(block: Ptr, header: seq<byte>, interface: Option<Ptr>, interfaces: seq<CInterface>)

  /** OutOfModel: the code has stored outside an array, and nothing is said about what follows. */
  datatype Status = Success | ErrorIo | ErrorNoMem | ErrorNotFound | Failed(code: int) | OutOfModel

  // ---------------------------------------------------------------- the tree in memory

  function AltsOf(alts: seq<CAlt>): (r: seq<AltSetting>)
    ensures |r| == |alts| && forall k :: 0 <= k < |alts| ==> r[k] == AltSetting(alts[k].header, alts[k].endpoints)
  {
    seq(|alts|, k requires 0 <= k < |alts| => AltSetting(alts[k].header, alts[k].endpoints))
  }

  function InterfacesOf(interfaces: seq<CInterface>): (r: seq<seq<AltSetting>>)
    ensures |r| == |interfaces| && forall m :: 0 <= m < |interfaces| ==> r[m] == AltsOf(interfaces[m].alts)
  {
    seq(|interfaces|, m requires 0 <= m < |interfaces| => AltsOf(interfaces[m].alts))
  }

  function ConfigOf(c: CConfig): Config {
    Config(c.header, InterfacesOf(c.interfaces))
  }

  // ---------------------------------------------------------------- the blocks of the tree

  function OwnedPtr(p: Option<Ptr>): multiset<Ptr> {
    if p.Some? then multiset{p.value} else multiset{}
  }

  function OwnedAlts(alts: seq<CAlt>): multiset<Ptr> {
    if alts == [] then multiset{} else OwnedAlts(alts[..|alts| - 1]) + OwnedPtr(alts[|alts| - 1].endpoint)
  }

  function OwnedInterface(i: CInterface): multiset<Ptr> {
    if i.altsetting.None? then multiset{} else multiset{i.altsetting.value} + OwnedAlts(i.alts)
  }

  function OwnedInterfaces(interfaces: seq<CInterface>): multiset<Ptr> {
    if interfaces == [] then multiset{}
    else OwnedInterfaces(interfaces[..|interfaces| - 1]) + OwnedInterface(interfaces[|interfaces| - 1])
  }

  /** Every block libusby_free_config_descriptor has to free. */
  function Owned(c: CConfig): multiset<Ptr> {
    multiset{c.block}
    + if c.interface.None? then multiset{} else multiset{c.interface.value} + OwnedInterfaces(c.interfaces)
  }

  lemma {:induction false} OwnedAltsPrefix(alts: seq<CAlt>, k: nat)
    requires k < |alts|
    ensures OwnedAlts(alts[..k + 1]) == OwnedAlts(alts[..k]) + OwnedPtr(alts[k].endpoint)
    ensures OwnedAlts(alts[..k + 1]) <= OwnedAlts(alts)
    decreases |alts|
  {
    assert alts[..k + 1][..k] == alts[..k];
    if k + 1 == |alts| {
      assert alts[..k + 1] == alts;
    } else {
      var shorter := alts[..|alts| - 1];
      OwnedAltsPrefix(shorter, k);
      assert shorter[..k + 1] == alts[..k + 1];
    }
  }

  lemma {:induction false} OwnedInterfacesPrefix(interfaces: seq<CInterface>, m: nat)
    requires m < |interfaces|
    ensures OwnedInterfaces(interfaces[..m + 1]) == OwnedInterfaces(interfaces[..m]) + OwnedInterface(interfaces[m])
    ensures OwnedInterfaces(interfaces[..m + 1]) <= OwnedInterfaces(interfaces)
    decreases |interfaces|
  {
    assert interfaces[..m + 1][..m] == interfaces[..m];
    if m + 1 == |interfaces| {
      assert interfaces[..m + 1] == interfaces;
    } else {
      var shorter := interfaces[..|interfaces| - 1];
      OwnedInterfacesPrefix(shorter, m);
      assert shorter[..m + 1] == interfaces[..m + 1];
    }
  }

  /** Replacing one interface exchanges its blocks. */
  lemma {:induction false} OwnedUpdate(interfaces: seq<CInterface>, m: nat, i: CInterface)
    requires m < |interfaces|
    ensures OwnedInterfaces(interfaces[m := i]) + OwnedInterface(interfaces[m]) ==
            OwnedInterfaces(interfaces) + OwnedInterface(i)
    decreases |interfaces|
  {
    hide OwnedInterface;
    var n := |interfaces| - 1;
    if m == n {
      assert interfaces[m := i][..n] == interfaces[..n];
      Swap(OwnedInterfaces(interfaces[..n]), OwnedInterface(interfaces[m]), OwnedInterface(i));
    } else {
      assert interfaces[m := i][..n] == interfaces[..n][m := i];
      OwnedUpdate(interfaces[..n], m, i);
      SwapUnder(OwnedInterfaces(interfaces[..n][m := i]), OwnedInterfaces(interfaces[..n]),
                OwnedInterface(interfaces[m]), OwnedInterface(i), OwnedInterface(interfaces[n]));
    }
  }

  lemma Swap(a: multiset<Ptr>, x: multiset<Ptr>, y: multiset<Ptr>)
    ensures a + y + x == a + x + y
  {
  }

  lemma SwapUnder(a': multiset<Ptr>, a: multiset<Ptr>, x: multiset<Ptr>, y: multiset<Ptr>, l: multiset<Ptr>)
    requires a' + x == a + y
    ensures a' + l + x == a + l + y
  {
    assert a' + l + x == (a' + x) + l;
    assert a + l + y == (a + y) + l;
  }

  /** What is left of `start` still contains what has not been freed. */
  lemma StillLive(live: multiset<Ptr>, freed: multiset<Ptr>, more: multiset<Ptr>, start: multiset<Ptr>)
    requires live + freed == start && freed + more <= start
    ensures more <= live && (live - more) + (freed + more) == start
  {
    assert live == start - freed;
    assert ((live - more) + (freed + more)) == start;
  }

  // ---------------------------------------------------------------- freeing

  method FreePtr(heap: Heap, p: Option<Ptr>)
    requires heap.Valid() && OwnedPtr(p) <= heap.live
    modifies heap`live
    ensures heap.Valid() && heap.live + OwnedPtr(p) == old(heap.live)
  {
    if p.Some? {
      assert p.value in OwnedPtr(p);
      heap.Free(p.value);
    }
  }

  /** Lines 678-681: the endpoint arrays of the settings. */
  method FreeEndpoints(heap: Heap, alts: seq<CAlt>)
    requires heap.Valid() && OwnedAlts(alts) <= heap.live
    modifies heap`live
    ensures heap.Valid() && heap.live + OwnedAlts(alts) == old(heap.live)
  {
    ghost var start := heap.live;
    var j := 0;
    assert OwnedAlts(alts[..0]) == multiset{};
    hide OwnedAlts, OwnedPtr;
    while j < |alts|
      invariant 0 <= j <= |alts| && heap.Valid()
      invariant heap.live + OwnedAlts(alts[..j]) == start
    {
      OwnedAltsPrefix(alts, j);
      StillLive(heap.live, OwnedAlts(alts[..j]), OwnedPtr(alts[j].endpoint), start);
      FreePtr(heap, alts[j].endpoint);
      j := j + 1;
    }
    assert alts[..j] == alts;
  }

  /** Lines 676-685: the blocks of one interface. */
  method FreeInterface(heap: Heap, i: CInterface)
    requires heap.Valid() && OwnedInterface(i) <= heap.live
    modifies heap`live
    ensures heap.Valid() && heap.live + OwnedInterface(i) == old(heap.live)
  {
    if i.altsetting.Some? {
      hide OwnedAlts;
      ghost var alts, block := OwnedAlts(i.alts), multiset{i.altsetting.value};
      assert alts <= block + alts;
      FreeEndpoints(heap, i.alts);
      StillLive(heap.live, alts, block, old(heap.live));
      assert i.altsetting.value in block;
      heap.Free(i.altsetting.value);
    }
  }

  /** Lines 674-686. */
  method FreeInterfaces(heap: Heap, interfaces: seq<CInterface>)
    requires heap.Valid() && OwnedInterfaces(interfaces) <= heap.live
    modifies heap`live
    ensures heap.Valid() && heap.live + OwnedInterfaces(interfaces) == old(heap.live)
  {
    ghost var start := heap.live;
    var m := 0;
    assert heap.live + OwnedInterfaces(interfaces[..0]) == start;
    while m < |interfaces|
      invariant 0 <= m <= |interfaces| && heap.Valid()
      invariant heap.live + OwnedInterfaces(interfaces[..m]) == start
    {
      OwnedInterfacesPrefix(interfaces, m);
      StillLive(heap.live, OwnedInterfaces(interfaces[..m]), OwnedInterface(interfaces[m]), start);
      hide OwnedInterface;
      FreeInterface(heap, interfaces[m]);
      m := m + 1;
    }
    assert interfaces[..m] == interfaces;
  }

  /** libusby_free_config_descriptor: every block of the tree is live when it is freed, and all of them are. */
  method FreeConfig(heap: Heap, c: CConfig)
    requires heap.Valid() && Owned(c) <= heap.live
    modifies heap`live
    ensures heap.Valid() && heap.live + Owned(c) == old(heap.live)
  {
    hide OwnedInterfaces;
    ghost var start := heap.live;
    if c.interface.Some? {
      ghost var tree, slots := OwnedInterfaces(c.interfaces), multiset{c.interface.value};
      assert tree <= Owned(c);
      FreeInterfaces(heap, c.interfaces);
      assert tree + slots <= Owned(c);
      StillLive(heap.live, tree, slots, start);
      assert c.interface.value in slots;
      heap.Free(c.interface.value);
      assert (tree + slots) + multiset{c.block} == Owned(c);
      StillLive(heap.live, tree + slots, multiset{c.block}, start);
    }
    assert c.block in multiset{c.block};
    heap.Free(c.block);
  }

  // ---------------------------------------------------------------- reading

  ghost predicate Consistent(interfaces: seq<CInterface>) {
    forall m :: 0 <= m < |interfaces| && interfaces[m].altsetting.None? ==> interfaces[m].alts == []
  }

  /** The interface whose setting was read last, and what the parser's variables say about it. */
  ghost predicate TreeOk(res: CConfig, open: Option<nat>, endpIndex: nat, n: nat) {
    && res.interface.Some? && |res.interfaces| == n && Consistent(res.interfaces)
    && ScanOk(ScanOf(res, open), n)
    && (open.Some? ==> endpIndex == |Current(ScanOf(res, open)).endpoints|)
  }

  function ScanOf(res: CConfig, open: Option<nat>): Scan {
    Scan(InterfacesOf(res.interfaces), open)
  }

  lemma Cancel(a: multiset<Ptr>, b: multiset<Ptr>, x: multiset<Ptr>)
    requires a + x == b + x
    ensures a == b
  {
    assert (a + x) - x == a;
    assert (b + x) - x == b;
  }

  lemma Exchange(base: multiset<Ptr>, p: multiset<Ptr>, a: multiset<Ptr>, q: multiset<Ptr>)
    ensures base + (p + a) - p + q == base + (q + a)
  {
  }

  lemma Regroup(base: multiset<Ptr>, a: multiset<Ptr>, b: multiset<Ptr>, c: multiset<Ptr>)
    ensures base + (a + b) + c == base + (a + (b + c))
  {
  }

  lemma OwnedAltsAppend(alts: seq<CAlt>, a: CAlt)
    ensures OwnedAlts(alts + [a]) == OwnedAlts(alts) + OwnedPtr(a.endpoint)
  {
    assert (alts + [a])[..|alts|] == alts;
  }

  /** Lines 570-572: a larger array of settings. `base` is everything else that is live. */
  method GrowAlts(heap: Heap, ghost base: multiset<Ptr>, i: CInterface) returns (altsetting: Option<Ptr>)
    requires heap.Valid() && heap.live == base + OwnedInterface(i) && (i.altsetting.None? ==> i.alts == [])
    modifies heap
    ensures heap.Valid()
    ensures altsetting.Some? ==>
              heap.live == base + (OwnedPtr(altsetting) + OwnedAlts(i.alts)) && heap.denied == old(heap.denied)
    ensures altsetting.None? ==> heap.live == old(heap.live) && heap.denied > old(heap.denied)
  {
    assert i.altsetting.Some? ==> i.altsetting.value in OwnedInterface(i);
    assert OwnedInterface(i) == OwnedPtr(i.altsetting) + OwnedAlts(i.alts);
    hide OwnedAlts, OwnedInterface, Heap.Valid;
    altsetting := heap.Realloc(i.altsetting);
    Exchange(base, OwnedPtr(i.altsetting), OwnedAlts(i.alts), OwnedPtr(altsetting));
  }

  /** Lines 566-582: one more setting for an interface. */
  method AddAlt(heap: Heap, ghost base: multiset<Ptr>, i: CInterface, b: seq<byte>) returns (ok: bool, i': CInterface)
    requires heap.Valid() && heap.live == base + OwnedInterface(i) && (i.altsetting.None? ==> i.alts == [])
    modifies heap
    ensures heap.Valid() && heap.live == base + OwnedInterface(i')
    ensures ok ==>
              && i'.altsetting.Some? && AltsOf(i'.alts) == AltsOf(i.alts) + [AltSetting(b, [])]
              && heap.denied == old(heap.denied)
    ensures !ok ==> heap.denied > old(heap.denied)
    ensures i'.altsetting.None? ==> i'.alts == []
  {
    hide OwnedAlts, Heap.Valid;
    var altsetting := GrowAlts(heap, base, i);
    if altsetting.None? {
      return false, i;
    }
    var endpoint := heap.Malloc();
    OwnedAltsAppend(i.alts, CAlt(b, endpoint, []));
    Regroup(base, OwnedPtr(altsetting), OwnedAlts(i.alts), OwnedPtr(endpoint));
    i' := CInterface(altsetting, i.alts + [CAlt(b, endpoint, [])]);
    ok := endpoint.Some?;
  }

  lemma Replace(base: multiset<Ptr>, whole: multiset<Ptr>, x: multiset<Ptr>, whole': multiset<Ptr>, y: multiset<Ptr>)
    requires x <= whole && whole' + x == whole + y
    ensures base + (whole - x) + x == base + whole
    ensures base + (whole - x) + y == base + whole'
  {
    assert (whole - x) + x == whole;
    assert ((whole - x) + y) + x == whole' + x;
    Cancel((whole - x) + y, whole', x);
    assert base + (whole - x) + y == base + ((whole - x) + y);
  }

  lemma OwnedMember(interfaces: seq<CInterface>, m: nat)
    requires m < |interfaces|
    ensures OwnedInterface(interfaces[m]) <= OwnedInterfaces(interfaces)
  {
    OwnedInterfacesPrefix(interfaces, m);
    hide OwnedInterface, OwnedInterfaces;
    assert OwnedInterface(interfaces[m]) <= OwnedInterfaces(interfaces[..m + 1]);
  }

  /** Lines 560-583: the setting is added to its interface, unless an allocation is denied. */
  method ReadSetting(heap: Heap, ghost base: multiset<Ptr>, interfaces: seq<CInterface>, b: seq<byte>)
    returns (ok: bool, interfaces': seq<CInterface>)
    requires heap.Valid() && heap.live == base + OwnedInterfaces(interfaces) && Consistent(interfaces)
    requires |b| == 9 && b[2] < |interfaces|
    modifies heap
    ensures heap.Valid() && heap.live == base + OwnedInterfaces(interfaces') && Consistent(interfaces')
    ensures |interfaces'| == |interfaces|
    ensures ok ==> InterfacesOf(interfaces') == AddSetting(Scan(InterfacesOf(interfaces), None), b[2], b).interfaces
                   && heap.denied == old(heap.denied)
    ensures !ok ==> heap.denied > old(heap.denied)
  {
    hide OwnedInterface, OwnedInterfaces, Heap.Valid;
    var m := b[2];
    var i := interfaces[m];
    OwnedMember(interfaces, m);
    ghost var others := base + (OwnedInterfaces(interfaces) - OwnedInterface(i));
    OwnedUpdate(interfaces, m, i);
    Replace(base, OwnedInterfaces(interfaces), OwnedInterface(i), OwnedInterfaces(interfaces), OwnedInterface(i));
    var i';
    ok, i' := AddAlt(heap, others, i, b);
    OwnedUpdate(interfaces, m, i');
    Replace(base, OwnedInterfaces(interfaces), OwnedInterface(i), OwnedInterfaces(interfaces[m := i']),
            OwnedInterface(i'));
    interfaces' := interfaces[m := i'];
    assert ok ==> InterfacesOf(interfaces') == InterfacesOf(interfaces)[m := AltsOf(i'.alts)];
  }

  /** Line 591: the endpoint goes into the array of the open setting. */
  method StoreEndpoint(interfaces: seq<CInterface>, m: nat, b: seq<byte>)
    returns (interfaces': seq<CInterface>)
    requires m < |interfaces| && Consistent(interfaces) && interfaces[m].alts != []
    ensures |interfaces'| == |interfaces| && Consistent(interfaces')
    ensures OwnedInterfaces(interfaces') == OwnedInterfaces(interfaces)
    ensures InterfacesOf(interfaces') == AddEndpoint(Scan(InterfacesOf(interfaces), Some(m)), b).interfaces
  {
    var i := interfaces[m];
    var last := |i.alts| - 1;
    var alts := i.alts[last := i.alts[last].(endpoints := i.alts[last].endpoints + [b])];
    interfaces' := interfaces[m := i.(alts := alts)];
    assert alts[..last] == i.alts[..last];
    assert AltsOf(alts) == AltsOf(i.alts)[..last] + [AltSetting(alts[last].header, alts[last].endpoints)];
    assert InterfacesOf(interfaces') == InterfacesOf(interfaces)[m := AltsOf(alts)];
    OwnedUpdate(interfaces, m, i.(alts := alts));
    Cancel(OwnedInterfaces(interfaces'), OwnedInterfaces(interfaces), OwnedInterface(i));
  }

  /** What is allocated besides the blocks of the interfaces stays as it is while reading. */
  ghost predicate Reading(heap: Heap, base: multiset<Ptr>, res: CConfig)
    reads heap
  {
    heap.Valid() && heap.live == base + OwnedInterfaces(res.interfaces)
  }

  /** Lines 548-592: one descriptor. */
  method ReadBlock(heap: Heap, ghost base: multiset<Ptr>, res: CConfig, open: Option<nat>, endpIndex: nat, n: nat,
                   b: seq<byte>)
    returns (status: Status, res': CConfig, open': Option<nat>, endpIndex': nat)
    requires Reading(heap, base, res) && TreeOk(res, open, endpIndex, n) && |b| >= 2 && |b| == b[0]
    modifies heap
    ensures Reading(heap, base, res') && res' == res.(interfaces := res'.interfaces)
    ensures status.Success? ==>
              && StepBlock(ScanOf(res, open), n, b) == Going(ScanOf(res', open'))
              && TreeOk(res', open', endpIndex', n) && heap.denied == old(heap.denied)
    ensures status.ErrorIo? ==> StepBlock(ScanOf(res, open), n, b) == Bad || heap.denied > old(heap.denied)
    ensures status.OutOfModel? ==> StepBlock(ScanOf(res, open), n, b) == Outside
    ensures heap.denied >= old(heap.denied) && status in {Success, ErrorIo, OutOfModel}
  {
    hide OwnedInterfaces, Heap.Valid;
    res', open', endpIndex' := res, open, endpIndex;
    ghost var sc := ScanOf(res, open);
    if b[1] == INTERFACE {
      if open.Some? {
        var alts := res.interfaces[open.value].alts;
        if endpIndex != alts[|alts| - 1].header[4] {
          return ErrorIo, res', open', endpIndex';
        }
      }
      if b[0] != 9 || b[2] >= |res.interfaces| || b[3] != |res.interfaces[b[2]].alts| {
        return ErrorIo, res', open', endpIndex';
      }
      var ok, interfaces := ReadSetting(heap, base, res.interfaces, b);
      res' := res.(interfaces := interfaces);
      if !ok {
        return ErrorIo, res', open', endpIndex';
      }
      open', endpIndex' := Some(b[2]), 0;
      assert ScanOf(res', open') == AddSetting(sc, b[2], b);
    }
    if b[1] == ENDPOINT {
      if b[0] != 7 {
        return ErrorIo, res', open', endpIndex';
      }
      if open.None? {
        return OutOfModel, res', open', endpIndex';
      }
      var alts := res.interfaces[open.value].alts;
      if endpIndex >= alts[|alts| - 1].header[4] {
        return OutOfModel, res', open', endpIndex';
      }
      var interfaces := StoreEndpoint(res.interfaces, open.value, b);
      res', endpIndex' := res.(interfaces := interfaces), endpIndex + 1;
      assert ScanOf(res', open') == AddEndpoint(sc, b);
    }
    status := Success;
  }

  /** The loop of lines 542-596: every read is inside the bytes that remain, and these get fewer. */
  method ReadBlocks(heap: Heap, ghost base: multiset<Ptr>, start: CConfig, n: nat, raw: seq<byte>)
    returns (status: Status, res: CConfig, open: Option<nat>, endpIndex: nat)
    requires Reading(heap, base, start) && TreeOk(start, None, 0, n)
    modifies heap
    ensures Reading(heap, base, res) && res == start.(interfaces := res.interfaces)
    ensures status.Success? ==>
              && ScanBytes(ScanOf(start, None), n, raw) == Going(ScanOf(res, open))
              && TreeOk(res, open, endpIndex, n) && heap.denied == old(heap.denied)
    ensures status.ErrorIo? ==> ScanBytes(ScanOf(start, None), n, raw) == Bad || heap.denied > old(heap.denied)
    ensures status.OutOfModel? ==> ScanBytes(ScanOf(start, None), n, raw) == Outside
    ensures heap.denied >= old(heap.denied) && status in {Success, ErrorIo, OutOfModel}
  {
    hide Reading, StepBlock;
    status, res, open, endpIndex := Success, start, None, 0;
    var rest := raw;
    while rest != []
      invariant Reading(heap, base, res) && res == start.(interfaces := res.interfaces)
      invariant status.Success? && TreeOk(res, open, endpIndex, n) && heap.denied == old(heap.denied)
      invariant ScanBytes(ScanOf(start, None), n, raw) == ScanBytes(ScanOf(res, open), n, rest)
      decreases |rest|
    {
      var desclen := rest[0];
      if desclen > |rest| || desclen < 2 {
        return ErrorIo, res, open, endpIndex;
      }
      status, res, open, endpIndex := ReadBlock(heap, base, res, open, endpIndex, n, rest[..desclen]);
      if !status.Success? {
        return;
      }
      rest := rest[desclen..];
    }
  }

  /** Lines 598-608: the last setting is complete and every interface has a setting. */
  method CheckComplete(res: CConfig, open: Option<nat>, endpIndex: nat, n: nat) returns (ok: bool)
    requires TreeOk(res, open, endpIndex, n)
    ensures ok <==> Missing(ScanOf(res, open)) == 0 && EveryInterfaceHasSetting(InterfacesOf(res.interfaces))
  {
    if open.Some? {
      var alts := res.interfaces[open.value].alts;
      if endpIndex != alts[|alts| - 1].header[4] {
        return false;
      }
    }
    var i := 0;
    while i < |res.interfaces|
      invariant 0 <= i <= |res.interfaces| && forall m :: 0 <= m < i ==> res.interfaces[m].alts != []
    {
      if |res.interfaces[i].alts| == 0 {
        assert InterfacesOf(res.interfaces)[i] == [];
        return false;
      }
      i := i + 1;
    }
    assert forall m :: 0 <= m < |res.interfaces| ==> |InterfacesOf(res.interfaces)[m]| == |res.interfaces[m].alts|;
    return true;
  }

  /** The array of interfaces after lines 537-540. */
  function NoSettings(n: nat): (r: seq<CInterface>)
    ensures |r| == n && forall m :: 0 <= m < n ==> r[m] == CInterface(None, [])
  {
    seq(n, _ => CInterface(None, []))
  }

  lemma {:induction false} NoSettingsOwnNothing(n: nat)
    ensures OwnedInterfaces(NoSettings(n)) == multiset{} && InterfacesOf(NoSettings(n)) == Empty(n)
  {
    if n > 0 {
      NoSettingsOwnNothing(n - 1);
      assert NoSettings(n)[..n - 1] == NoSettings(n - 1);
    }
  }

  /**
   usbyi_sanitize_config_descriptor. With no allocation denied the three outcomes are those of
   ParseConfig; whatever is denied, an error leaves exactly the blocks that were live before.
   */
  method Sanitize(heap: Heap, raw: seq<byte>) returns (status: Status, config: Option<CConfig>)
    requires heap.Valid()
    modifies heap
    ensures heap.Valid() && heap.denied >= old(heap.denied)
    ensures status.Success? <==> config.Some?
    ensures status.Success? ==>
              && ParseConfig(raw) == Parsed(ConfigOf(config.value))
              && heap.live == old(heap.live) + Owned(config.value) && heap.denied == old(heap.denied)
    ensures status.ErrorIo? || status.ErrorNoMem? ==> heap.live == old(heap.live)
    ensures status.ErrorIo? ==> ParseConfig(raw) == Malformed || heap.denied > old(heap.denied)
    ensures status.ErrorNoMem? ==> heap.denied > old(heap.denied)
    ensures status.OutOfModel? ==> ParseConfig(raw) == Overrun
    ensures status in {Success, ErrorIo, ErrorNoMem, OutOfModel}
    ensures heap.denied == old(heap.denied) ==>
              && (status.Success? <==> ParseConfig(raw).Parsed?)
              && (status.ErrorIo? <==> ParseConfig(raw).Malformed?)
              && (status.OutOfModel? <==> ParseConfig(raw).Overrun?)
  {
    config := None;
    if |raw| < 9 || raw[1] != CONFIGURATION || raw[0] != 9 {
      return ErrorIo, None;
    }
    ghost var start := heap.live;
    var block := heap.Malloc();
    if block.None? {
      return ErrorNoMem, None;
    }
    var interface := heap.Malloc();
    if interface.None? {
      var res := CConfig(block.value, raw[..9], None, []);
      FreeConfig(heap, res);
      Cancel(heap.live, start, Owned(res));
      return ErrorIo, None;
    }
    status, config := Read(heap, start, block.value, interface.value, raw);
  }

  lemma OwnedTree(start: multiset<Ptr>, res: CConfig)
    requires res.interface.Some?
    ensures start + multiset{res.block} + multiset{res.interface.value} + OwnedInterfaces(res.interfaces) ==
            start + Owned(res)
  {
  }

  /** The rest of usbyi_sanitize_config_descriptor, lines 533-615. */
  method Read(heap: Heap, ghost start: multiset<Ptr>, block: Ptr, interface: Ptr, raw: seq<byte>)
    returns (status: Status, config: Option<CConfig>)
    requires heap.Valid() && heap.live == start + multiset{block} + multiset{interface}
    requires |raw| >= 9 && raw[1] == CONFIGURATION && raw[0] == 9
    modifies heap
    ensures heap.Valid() && heap.denied >= old(heap.denied)
    ensures status.Success? <==> config.Some?
    ensures status.Success? ==>
              && ParseConfig(raw) == Parsed(ConfigOf(config.value))
              && heap.live == start + Owned(config.value) && heap.denied == old(heap.denied)
    ensures status.ErrorIo? ==> heap.live == start && (ParseConfig(raw) == Malformed || heap.denied > old(heap.denied))
    ensures status.OutOfModel? ==> ParseConfig(raw) == Overrun
    ensures status in {Success, ErrorIo, OutOfModel}
  {
    hide OwnedInterfaces, Owned, Heap.Valid, ScanBytes;
    var n: nat := raw[4];
    var res := CConfig(block, raw[..9], Some(interface), NoSettings(n));
    NoSettingsOwnNothing(n);
    ghost var base := heap.live;
    var open, endpIndex;
    status, res, open, endpIndex := ReadBlocks(heap, base, res, n, raw[9..]);
    if status.OutOfModel? {
      return OutOfModel, None;
    }
    OwnedTree(start, res);
    if status.Success? {
      var ok := CheckComplete(res, open, endpIndex, n);
      if ok {
        return Success, Some(res);
      }
    }
    FreeConfig(heap, res);
    Cancel(heap.live, start, Owned(res));
    return ErrorIo, None;
  }
}
