/**
 Fetching a configuration descriptor, header first and then the whole of it (src/libusby.c:618-666), and
 the search for a configuration by its value (src/libusby.c:704-730).
 */
module ConfigSearch {
  import opened Options
  import opened ConfigGrammar
  import opened CHeap
  import opened ConfigParser
  import opened DeviceNodes
  import opened DeviceRegistry
  import opened DescriptorRequests

  type HeaderBuffer = s: seq<byte> | |s| == 6 witness [0, 0, 0, 0, 0, 0]

  /**
   The requests for one configuration: what the six-byte buffer held before the first, what the device answers
   to that, and what it answers to a request for any number of bytes.
   */
  datatype Fetches = Fetches(stack: HeaderBuffer, header: Answer, body: nat -> Answer)

  /** wTotalLength, where the header has it. */
  function TotalLength(header: seq<byte>): nat
    requires |header| >= 4
  {
    256 * (header[3] as int) + header[2]
  }

  /** The buffer after the first request. */
  function Header(f: Fetches): HeaderBuffer
    requires f.header.Bytes?
  {
    Filled(f.stack, f.header)
  }

  /** The answer to the second request, which is for as many bytes as the buffer says. */
  function Body(f: Fetches): Answer
    requires f.header.Bytes?
  {
    Arrived(f.body(TotalLength(Header(f))), TotalLength(Header(f)))
  }

  /** The bytes handed to the parser. */
  function Raw(f: Fetches): Answer {
    if f.header.Fail? then f.header else Body(f)
  }

  /** The first answer has the total length in it. */
  predicate Announces(f: Fetches) {
    f.header.Bytes? && |f.header.data| >= 4
  }

  /** The second request asks for what the device announced if and only if the first answer has at least four bytes. */
  lemma LengthIsAnnounced(f: Fetches)
    requires f.header.Bytes?
    ensures Announces(f) ==> TotalLength(Header(f)) == TotalLength(f.header.data)
    ensures Announces(f) <==>
            forall stack: HeaderBuffer :: TotalLength(Header(f.(stack := stack))) == TotalLength(Header(f))
  {
    if !Announces(f) {
      var stale: HeaderBuffer := f.stack[3 := if f.stack[3] == 0 then 1 else 0];
      assert TotalLength(Header(f.(stack := stale))) != TotalLength(Header(f));
    }
  }

  /** A two-byte answer, and two buffers that make the second request ask for nothing, and for 256 bytes. */
  lemma StaleLengths(body: nat -> Answer)
    ensures TotalLength(Header(Fetches([0, 0, 0, 0, 0, 0], Bytes([9, 2]), body))) == 0
    ensures TotalLength(Header(Fetches([0, 0, 0, 1, 0, 0], Bytes([9, 2]), body))) == 256
  {
  }

  ghost predicate Reads(f: Fetches, c: CConfig) {
    Raw(f).Bytes? && ParseConfig(Raw(f).data) == Parsed(ConfigOf(c))
  }

  /** Why fetching a configuration may fail; `denied` says that an allocation was denied. */
  ghost predicate Explains(f: Fetches, status: Status, denied: bool) {
    var raw := Raw(f);
    match status
    case Failed(code) => raw == Fail(code)
    case ErrorIo => raw.Bytes? && (denied || ParseConfig(raw.data) == Malformed)
    case ErrorNoMem => denied && f.header.Bytes?
    case OutOfModel => raw.Bytes? && ParseConfig(raw.data) == Overrun
    case _ => false
  }

  /** Lines 635-637. */
  method ParseBody(heap: Heap, f: Fetches) returns (status: Status, config: Option<CConfig>)
    requires heap.Valid() && f.header.Bytes?
    modifies heap
    ensures heap.Valid() && heap.denied >= old(heap.denied)
    ensures status.Success? <==> config.Some?
    ensures status.Success? ==> Reads(f, config.value) && heap.denied == old(heap.denied)
    ensures !status.Success? ==> Explains(f, status, heap.denied > old(heap.denied))
    ensures !status.OutOfModel? ==> heap.live == old(heap.live) + Tree(config)
  {
    hide ParseConfig, Owned, Heap.Valid;
    var body := Body(f);
    if body.Fail? {
      return Failed(body.code), None;
    }
    status, config := Sanitize(heap, body.data);
  }

  /** The blocks of a tree that may not have been built. */
  function Tree(config: Option<CConfig>): multiset<Ptr> {
    if config.Some? then Owned(config.value) else multiset{}
  }

  lemma Release(start: multiset<Ptr>, p: Ptr, tree: multiset<Ptr>)
    ensures p in start + multiset{p} + tree
    ensures start + multiset{p} + tree - multiset{p} == start + tree
  {
  }

  /** libusby_get_config_descriptor and, with the cache for a device, libusby_get_config_descriptor_cached. */
  method GetConfig(heap: Heap, f: Fetches) returns (status: Status, config: Option<CConfig>)
    requires heap.Valid()
    modifies heap
    ensures heap.Valid() && heap.denied >= old(heap.denied)
    ensures status.Success? <==> config.Some?
    ensures status.Success? ==> Reads(f, config.value) && heap.denied == old(heap.denied)
    ensures !status.Success? ==> Explains(f, status, heap.denied > old(heap.denied))
    ensures !status.OutOfModel? ==> heap.live == old(heap.live) + Tree(config)
    ensures Announces(f) ==>
              Raw(f) == Arrived(f.body(TotalLength(f.header.data)), TotalLength(f.header.data))
  {
    if f.header.Bytes? {
      LengthIsAnnounced(f);
    }
    hide Reads, Tree, Heap.Valid;
    if f.header.Fail? {
      assert Tree(None) == multiset{} by { NoTree(); }
      return Failed(f.header.code), None;
    }
    ghost var start := heap.live;
    var rawdesc := heap.Malloc();
    if rawdesc.None? {
      assert Tree(None) == multiset{} by { NoTree(); }
      return ErrorNoMem, None;
    }
    status, config := ParseBody(heap, f);
    if status.OutOfModel? {
      return;
    }
    Release(start, rawdesc.value, Tree(config));
    heap.Free(rawdesc.value);
  }

  lemma NoTree()
    ensures Tree(None) == multiset{}
  {
  }

  /** The configuration was read and has another value. */
  ghost predicate Rejected(f: Fetches, value: byte) {
    exists c :: Reads(f, c) && |c.header| == 9 && c.header[5] != value
  }

  lemma ParsedHeader(s: seq<byte>)
    requires ParseConfig(s).Parsed?
    ensures |ParseConfig(s).config.header| == 9
  {
  }

  /** Lines 713-729: the configurations with the indices below n. */
  method Search(heap: Heap, device: nat -> Fetches, n: byte, value: byte)
    returns (status: Status, config: Option<CConfig>, i: nat)
    requires heap.Valid()
    modifies heap
    ensures heap.Valid() && i <= n
    ensures status.Success? <==> config.Some?
    ensures forall k :: 0 <= k < i ==> Rejected(device(k), value)
    ensures status.Success? ==>
              && i < n && Reads(device(i), config.value)
              && |config.value.header| == 9 && config.value.header[5] == value
              && heap.live == old(heap.live) + Owned(config.value)
    ensures status.ErrorNotFound? <==> i == n
    ensures !status.Success? && i < n ==> Explains(device(i), status, heap.denied > old(heap.denied))
    ensures !status.Success? && !status.OutOfModel? ==> heap.live == old(heap.live)
  {
    hide ParseConfig, Owned;
    i := 0;
    while i < n
      invariant heap.Valid() && i <= n && heap.live == old(heap.live) && heap.denied == old(heap.denied)
      invariant forall k :: 0 <= k < i ==> Rejected(device(k), value)
    {
      status, config := GetConfig(heap, device(i));
      if !status.Success? {
        return;
      }
      ParsedHeader(Raw(device(i)).data);
      if config.value.header[5] == value {
        return;
      }
      FreeConfig(heap, config.value);
      Cancel(heap.live, old(heap.live), Owned(config.value));
      i := i + 1;
    }
    return ErrorNotFound, None, i;
  }

  /**
   libusby_get_config_descriptor_by_value: the device descriptor, cached or asked for, and then the configurations
   that it announces, each with its own requests. The first one with the value is returned, the first failure stops
   the search, and of the trees that are read only the returned one stays.
   */
  method GetConfigByValue(heap: Heap, ctx: Context, h: Handle, q: Request, device: nat -> Fetches, value: byte,
                          ghost refs: multiset<Device>)
    returns (status: Status, config: Option<CConfig>, i: nat)
    requires heap.Valid() && ctx.Sound(refs)
    modifies heap, h.dev`desc
    ensures heap.Valid() && ctx.Sound(refs) && h.dev.desc == Fetched(old(h.dev.desc), q)
    ensures status.Success? <==> config.Some?
    ensures var r := Asked(old(h.dev.desc), q);
            if r.Refused? then status == Failed(r.code) && i == 0
            else if r.NotADescriptor? then status == ErrorIo && i == 0
            else
              && i <= r.desc[17] && (status.ErrorNotFound? <==> i == r.desc[17])
              && (status.Success? ==> i < r.desc[17])
              && (!status.Success? && i < r.desc[17] ==>
                    Explains(device(i), status, heap.denied > old(heap.denied)))
    ensures forall k :: 0 <= k < i ==> Rejected(device(k), value)
    ensures status.Success? ==>
              && Reads(device(i), config.value)
              && |config.value.header| == 9 && config.value.header[5] == value
              && heap.live == old(heap.live) + Owned(config.value)
    ensures !status.Success? && !status.OutOfModel? ==> heap.live == old(heap.live)
  {
    hide Owned, Context.Sound, Heap.Valid, Asked, Fetched, Rejected, Reads, Explains;
    var r := GetDeviceDescriptor(ctx, h, q, refs);
    if !r.Got? {
      return if r.Refused? then Failed(r.code) else ErrorIo, None, 0;
    }
    status, config, i := Search(heap, device, r.desc[17], value);
  }
}
