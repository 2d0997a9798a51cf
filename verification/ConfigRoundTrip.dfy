/**
 Whole configurations as they come from a device or from a device file: what was printed is what the program gets
 (src/libusby.c:519-666, src/os/linux_usbfs.c:354-401, 565-592).
 */
module ConfigRoundTrip {
  import opened Options
  import opened ConfigGrammar
  import opened ConfigTheorems
  import opened CHeap
  import opened ConfigParser
  import opened DescriptorRequests
  import opened ConfigSearch
  import opened DescriptorCache

  /** Bytes 2 and 3 are the length of the whole, low byte first, as section 9.6.3 of USB 2.0 has it. */
  predicate LengthInside(s: seq<byte>) {
    4 <= |s| < 0x10000 && s[2] == |s| % 256 && s[3] == |s| / 256
  }

  /** The bytes of a tree, with its length inside, and with descriptors of other types anywhere after the header. */
  ghost predicate Printed(s: seq<byte>, c: Config) {
    && WellFormed(c) && LengthInside(s)
    && exists bs :: AllSized(bs) && Known(bs) == PrintInterfaces(c.interfaces) && s == c.header + Flatten(bs)
  }

  lemma PrintedParses(s: seq<byte>, c: Config)
    requires Printed(s, c)
    ensures ParseConfig(s) == Parsed(c)
  {
    var bs :| AllSized(bs) && Known(bs) == PrintInterfaces(c.interfaces) && s == c.header + Flatten(bs);
    PrintParse(c, bs);
  }

  /** A device that has s, and answers each request with as much of it as was asked for. */
  function Serves(stack: HeaderBuffer, s: seq<byte>): Fetches {
    Fetches(stack, Bytes(if |s| < 6 then s else s[..6]), (n: nat) => Bytes(if |s| < n then s else s[..n]))
  }

  /** What is fetched from such a device is s if and only if the length inside is not too small. */
  lemma ServedExactly(stack: HeaderBuffer, s: seq<byte>)
    requires |s| >= 4
    ensures Raw(Serves(stack, s)) == Bytes(s) <==> |s| <= (s[2] as int) + 256 * (s[3] as int)
    ensures LengthInside(s) ==> Raw(Serves(stack, s)) == Bytes(s)
  {
    var n := (s[2] as int) + 256 * (s[3] as int);
    assert TotalLength(Header(Serves(stack, s))) == n;
    assert |s| > n ==> |s[..n]| != |s|;
  }

  /** The blobs of a cache are the strings that have their length inside. */
  lemma BlobHasLengthInside(s: seq<byte>)
    ensures Blob(s) <==> LengthInside(s)
  {
  }

  /** A device file with a device descriptor, as many configurations as that announces, and whatever else. */
  lemma FileSplits(descriptor: seq<byte>, ss: seq<seq<byte>>, tail: seq<byte>)
    requires |descriptor| == 18 && descriptor[17] == |ss| && forall k :: 0 <= k < |ss| ==> LengthInside(ss[k])
    ensures DeviceBlobs(descriptor + Flatten(ss) + tail) == Some(ss)
  {
    forall k | 0 <= k < |ss| ensures Blob(ss[k]) {
      BlobHasLengthInside(ss[k]);
    }
    SplitEnds(ss, tail);
    var content := descriptor + Flatten(ss) + tail;
    assert content[18..] == Flatten(ss) + tail && content[17] == descriptor[17];
  }

  /** libusby_get_config_descriptor gives the tree that the device has. */
  method GetPrinted(heap: Heap, stack: HeaderBuffer, s: seq<byte>, ghost c: Config)
    returns (status: Status, config: Option<CConfig>)
    requires heap.Valid() && Printed(s, c)
    modifies heap
    ensures heap.Valid() && (status.Success? <==> config.Some?)
    ensures status.Success? <==> heap.denied == old(heap.denied)
    ensures status.Success? ==> ConfigOf(config.value) == c
    ensures heap.live == old(heap.live) + Tree(config)
  {
    PrintedParses(s, c);
    ServedExactly(stack, s);
    hide ParseConfig, Owned, Heap.Valid, Serves, Raw, Printed;
    status, config := GetConfig(heap, Serves(stack, s));
  }

  /**
   So does libusby_get_config_descriptor_cached on Linux, for each of the configurations in the device file, once
   that was read in full.
   */
  method GetPrintedCached(heap: Heap, file: DeviceFile, descriptor: seq<byte>, ss: seq<seq<byte>>, tail: seq<byte>,
                          index: byte, stack: HeaderBuffer, ghost c: Config)
    returns (kept: bool, status: Status, config: Option<CConfig>)
    requires heap.Valid() && file.Valid() && file.Rest() == descriptor + Flatten(ss) + tail
    requires |descriptor| == 18 && descriptor[17] == |ss| && forall k :: 0 <= k < |ss| ==> LengthInside(ss[k])
    requires index < |ss| && Printed(ss[index], c)
    modifies heap, file
    ensures heap.denied == old(heap.denied) && file.shortfalls == old(file.shortfalls) ==> kept && status.Success?
    ensures status.Success? ==> config.Some? && ConfigOf(config.value) == c
  {
    PrintedParses(ss[index], c);
    FileSplits(descriptor, ss, tail);
    hide ParseConfig, Owned, Heap.Valid, Printed, LengthInside, DeviceBlobs, ConfigOf;
    var dev := new CachedDevice();
    var outcome := dev.Enumerate(heap, file);
    kept, status, config := outcome.Kept?, ErrorIo, None;
    if kept {
      status, config := GetConfigCached(heap, dev, index, stack, ss);
    }
  }
}
