/**
 The configuration descriptors a Linux device keeps: read from its device file when it is enumerated
 (src/os/linux_usbfs.c:354-401) and looked up by index later (src/os/linux_usbfs.c:565-592).
 */
module DescriptorCache {
  import opened Options
  import opened ConfigGrammar
  import opened CHeap
  import opened ConfigParser
  import opened DescriptorRequests
  import opened ConfigSearch

  const INVALID_PARAM := -2
  const NOT_SUPPORTED := -12

  // ---------------------------------------------------------------- blobs

  /** A configuration descriptor with all that follows it up to its wTotalLength. */
  predicate Blob(b: seq<byte>) {
    |b| >= 4 && |b| == TotalLength(b)
  }

  predicate Blobs(bs: seq<seq<byte>>) {
    forall k :: 0 <= k < |bs| ==> Blob(bs[k])
  }

  /** The string starts with a blob. */
  predicate HasBlob(s: seq<byte>) {
    |s| >= 4 && 4 <= TotalLength(s) <= |s|
  }

  /** The first n blobs of a byte string, if it holds that many. */
  function Split(s: seq<byte>, n: nat): Option<seq<seq<byte>>> {
    if n == 0 then Some([])
    else if !HasBlob(s) then None
    else
      match Split(s[TotalLength(s)..], n - 1)
      case None => None
      case Some(bs) => Some([s[..TotalLength(s)]] + bs)
  }

  lemma SplitHead(b: seq<byte>, s: seq<byte>, n: nat)
    requires Blob(b)
    ensures Split(b + s, n + 1) == if Split(s, n).None? then None else Some([b] + Split(s, n).value)
  {
    assert (b + s)[..|b|] == b && (b + s)[|b|..] == s;
  }

  /** Splitting what starts with some blobs: it all depends on what follows them. */
  lemma {:induction false} SplitAfter(bs: seq<seq<byte>>, tail: seq<byte>, n: nat)
    requires Blobs(bs)
    ensures Split(Flatten(bs) + tail, |bs| + n) ==
            if Split(tail, n).None? then None else Some(bs + Split(tail, n).value)
  {
    hide Split, Blob;
    if bs == [] {
      assert Flatten(bs) + tail == tail;
      assert Split(tail, n).Some? ==> bs + Split(tail, n).value == Split(tail, n).value;
    } else {
      SplitAfter(bs[1..], tail, n);
      SplitHead(bs[0], Flatten(bs[1..]) + tail, |bs| - 1 + n);
      assert Flatten(bs) + tail == bs[0] + (Flatten(bs[1..]) + tail);
      assert Split(tail, n).Some? ==> [bs[0]] + (bs[1..] + Split(tail, n).value) == bs + Split(tail, n).value;
    }
  }

  /** What Split finds are blobs, and the string starts with them. */
  lemma {:induction false} SplitSound(s: seq<byte>, n: nat)
    requires Split(s, n).Some?
    ensures var bs := Split(s, n).value; Blobs(bs) && |bs| == n && Flatten(bs) <= s
  {
    if n > 0 {
      var w := TotalLength(s);
      SplitSound(s[w..], n - 1);
      assert s == s[..w] + s[w..];
    }
  }

  lemma {:induction false} FlattenAppend(bs: seq<seq<byte>>, b: seq<byte>)
    ensures Flatten(bs + [b]) == Flatten(bs) + b
  {
    if bs == [] {
      assert Flatten([b]) == b + Flatten([]);
    } else {
      FlattenAppend(bs[1..], b);
      assert (bs + [b])[1..] == bs[1..] + [b];
      assert bs[0] + (Flatten(bs[1..]) + b) == Flatten(bs) + b;
    }
  }

  lemma NoBlobs(s: seq<byte>)
    ensures Flatten([]) == [] && s == Flatten([]) + s && Blobs([])
  {
  }

  /** One more blob of s is found at the start of its rest. */
  lemma NextBlob(s: seq<byte>, bs: seq<seq<byte>>, rest: seq<byte>)
    requires s == Flatten(bs) + rest && Blobs(bs) && HasBlob(rest)
    ensures var w := TotalLength(rest);
            && s == Flatten(bs + [rest[..w]]) + rest[w..] && Blobs(bs + [rest[..w]])
            && Flatten(bs + [rest[..w]]) == Flatten(bs) + rest[..w]
  {
    var w := TotalLength(rest);
    FlattenAppend(bs, rest[..w]);
    assert s == (Flatten(bs) + rest[..w]) + rest[w..];
  }

  /** The first bytes of a blob that stands somewhere in a string. */
  lemma Slice(s: seq<byte>, at: nat, b: seq<byte>, n: nat)
    requires at + |b| <= |s| && s[at..][..|b|] == b && n <= |b|
    ensures s[at..at + n] == b[..n]
  {
    assert s[at..][..|b|] == s[at..at + |b|];
  }

  lemma SplitEnds(bs: seq<seq<byte>>, rest: seq<byte>)
    requires Blobs(bs)
    ensures Split(Flatten(bs) + rest, |bs|) == Some(bs)
  {
    SplitAfter(bs, rest, 0);
    assert bs + [] == bs;
  }

  lemma SplitFails(bs: seq<seq<byte>>, rest: seq<byte>, n: nat)
    requires Blobs(bs) && |bs| < n
    ensures !HasBlob(rest) ==> Split(Flatten(bs) + rest, n).None?
  {
    SplitAfter(bs, rest, n - |bs|);
  }

  /** n blobs are found exactly in the strings that start with n blobs. */
  lemma SplitExactly(s: seq<byte>, n: nat)
    ensures Split(s, n).Some? <==> exists bs :: Blobs(bs) && |bs| == n && Flatten(bs) <= s
  {
    if Split(s, n).Some? {
      SplitSound(s, n);
    }
    if bs :| Blobs(bs) && |bs| == n && Flatten(bs) <= s {
      var tail := s[|Flatten(bs)|..];
      assert s == Flatten(bs) + tail;
      SplitEnds(bs, tail);
    }
  }

  /** Blob i lies where the lengths of the blobs before it end. */
  lemma {:induction false} BlobAt(bs: seq<seq<byte>>, i: nat)
    requires i < |bs|
    ensures |Flatten(bs[..i])| + |bs[i]| <= |Flatten(bs)|
    ensures Flatten(bs)[|Flatten(bs[..i])|..][..|bs[i]|] == bs[i]
    ensures |Flatten(bs[..i + 1])| == |Flatten(bs[..i])| + |bs[i]|
  {
    if i == 0 {
      assert bs[..1][1..] == [];
      assert Flatten(bs[..1]) == bs[0] + Flatten([]);
      assert Flatten(bs)[..|bs[0]|] == bs[0];
    } else {
      BlobAt(bs[1..], i - 1);
      assert bs[..i][1..] == bs[1..][..i - 1] && bs[..i + 1][1..] == bs[1..][..i];
      var before := |Flatten(bs[1..][..i - 1])|;
      assert Flatten(bs)[|bs[0]| + before..] == Flatten(bs[1..])[before..];
    }
  }

  // ---------------------------------------------------------------- the device file

  /** An open device file. Each read gives at most as many bytes as `answers` allows, or fails. */
  class DeviceFile {
    const content: seq<byte>
    const answers: nat -> Option<nat>
    var calls: nat
    var pos: nat
    var shortfalls: nat // the reads that gave less than there was

    ghost predicate Valid()
      reads this
    {
      pos <= |content|
    }

    ghost function Rest(): seq<byte>
      reads this
      requires Valid()
    {
      content[pos..]
    }

    constructor (content: seq<byte>, answers: nat -> Option<nat>)
      ensures Valid() && Rest() == content && this.content == content && shortfalls == 0
    {
      this.content, this.answers := content, answers;
      calls, pos, shortfalls := 0, 0, 0;
    }

    method Read(buffer: array<byte>, at: nat, n: nat) returns (r: int)
      requires Valid() && at + n <= buffer.Length
      modifies this, buffer
      ensures Valid() && -1 <= r <= n && r <= |old(Rest())| && shortfalls >= old(shortfalls)
      ensures r >= 0 ==> Rest() == old(Rest())[r..] && buffer[at..at + r] == old(Rest())[..r]
      ensures forall k :: 0 <= k < buffer.Length && !(at <= k < at + r) ==> buffer[k] == old(buffer[k])
      ensures shortfalls == old(shortfalls) ==> r == n || r == |old(Rest())|
    {
      var rest := content[pos..];
      var available := if n < |rest| then n else |rest|;
      calls := calls + 1;
      match answers(calls - 1) {
        case None =>
          shortfalls := shortfalls + 1;
          return -1;
        case Some(most) =>
          var given := if most < available then most else available;
          if given < available {
            shortfalls := shortfalls + 1;
          }
          forall k | 0 <= k < given {
            buffer[at + k] := rest[k];
          }
          assert buffer[at..at + given] == rest[..given] && content[pos + given..] == rest[given..];
          pos := pos + given;
          return given;
      }
    }
  }

  // ---------------------------------------------------------------- building the cache

  lemma Joined(s: seq<byte>, n: nat, a: seq<byte>, b: seq<byte>)
    requires n <= |s| && s[..n] == a && s[n..] == b
    ensures s == a + b
  {
  }

  /** NoMem: an allocation was denied. Dropped: the file does not hold what it should, or a read fell short. */
  datatype Outcome = Kept | Dropped | NoMem

  /** What the file of a device holds after its device descriptor. */
  function DeviceBlobs(content: seq<byte>): Option<seq<seq<byte>>> {
    if |content| < 18 then None else Split(content[18..], content[17])
  }

  /** A device: its device descriptor, its cache, and the block the cache lives in. */
  class CachedDevice {
    const descriptor: array<byte>
    var block: Option<Ptr>
    var cache: array<byte>

    constructor ()
      ensures fresh(descriptor) && fresh(cache) && descriptor.Length == 18 && cache.Length == 0 && block.None?
    {
      descriptor, cache := new byte[18](_ => 0), new byte[0];
      block := None;
    }

    /** The cache holds the blobs one after the other, as many as the device has configurations. */
    ghost predicate Holds(bs: seq<seq<byte>>)
      reads this, descriptor, cache
    {
      descriptor.Length == 18 && Blobs(bs) && |bs| == descriptor[17] && cache[..] == Flatten(bs)
    }

    /** Lines 385-391: the block grows, and keeps its bytes; a denied reallocation changes nothing. */
    method Grow(heap: Heap, ghost base: multiset<Ptr>, len: nat) returns (ok: bool)
      requires heap.Valid() && len >= cache.Length && heap.live == base + OwnedPtr(block)
      modifies this`block, this`cache, heap
      ensures heap.Valid() && heap.live == base + OwnedPtr(block)
      ensures ok ==> fresh(cache) && cache.Length == len && cache[..old(cache.Length)] == old(cache[..])
                     && heap.denied == old(heap.denied)
      ensures !ok ==> cache == old(cache) && heap.denied > old(heap.denied)
    {
      assert block.Some? ==> block.value in OwnedPtr(block);
      hide Heap.Valid;
      var grown := heap.Realloc(block);
      if grown.None? {
        return false;
      }
      var bytes := new byte[len];
      forall k | 0 <= k < cache.Length {
        bytes[k] := cache[k];
      }
      cache, block := bytes, grown;
      return true;
    }

    /** Lines 379-383: the length of the next blob, from its first four bytes. */
    method ReadHeader(file: DeviceFile) returns (ok: bool, header: array<byte>)
      requires file.Valid()
      modifies file
      ensures file.Valid() && file.shortfalls >= old(file.shortfalls) && fresh(header) && header.Length == 4
      ensures ok ==>
                && |old(file.Rest())| >= 4 && header[..] == old(file.Rest())[..4]
                && file.Rest() == old(file.Rest())[4..] && TotalLength(header[..]) >= 4
      ensures !ok ==>
                file.shortfalls > old(file.shortfalls) || |old(file.Rest())| < 4 || TotalLength(old(file.Rest())) < 4
    {
      header := new byte[4];
      var r := file.Read(header, 0, 4);
      if r != 4 {
        return false, header;
      }
      assert header[0..4] == header[..];
      return TotalLength(header[..]) >= 4, header;
    }

    /** Lines 393-398: the first four bytes are copied, the others read, behind the `len` bytes that are there. */
    method Store(file: DeviceFile, header: array<byte>, len: nat, w: nat) returns (ok: bool)
      requires file.Valid() && header.Length == 4 && w >= 4 && cache.Length == len + w && cache != header
      modifies file, cache
      ensures file.Valid() && file.shortfalls >= old(file.shortfalls)
      ensures ok ==>
                && w - 4 <= |old(file.Rest())| && file.Rest() == old(file.Rest())[w - 4..]
                && cache[..] == old(cache[..len]) + (old(header[..]) + old(file.Rest())[..w - 4])
      ensures !ok ==> file.shortfalls > old(file.shortfalls) || w - 4 > |old(file.Rest())|
    {
      ghost var kept, rest := cache[..len], file.Rest();
      cache[len], cache[len + 1], cache[len + 2], cache[len + 3] := header[0], header[1], header[2], header[3];
      assert cache[..len] == kept && cache[len..len + 4] == header[..];
      Joined(cache[..len + 4], len, kept, header[..]);
      label copied:
      var r := file.Read(cache, len + 4, w - 4);
      if r != w - 4 {
        return false;
      }
      assert cache[..len + 4] == old@copied(cache[..len + 4]);
      Joined(cache[..], len + 4, kept + old(header[..]), rest[..w - 4]);
      assert kept + old(header[..]) + rest[..w - 4] == kept + (old(header[..]) + rest[..w - 4]);
      return true;
    }

    /** Lines 375-400: the next blob of the file goes to the end of the cache. */
    method ReadBlob(heap: Heap, file: DeviceFile, ghost base: multiset<Ptr>) returns (outcome: Outcome)
      requires heap.Valid() && file.Valid() && heap.live == base + OwnedPtr(block)
      modifies this`block, this`cache, heap, file
      ensures heap.Valid() && file.Valid() && heap.live == base + OwnedPtr(block)
      ensures cache == old(cache) || fresh(cache)
      ensures heap.denied >= old(heap.denied) && file.shortfalls >= old(file.shortfalls)
      ensures outcome.Kept? ==>
                && HasBlob(old(file.Rest()))
                && var w := TotalLength(old(file.Rest()));
                  cache[..] == old(cache[..]) + old(file.Rest())[..w] && file.Rest() == old(file.Rest())[w..]
      ensures outcome.Dropped? ==> file.shortfalls > old(file.shortfalls) || !HasBlob(old(file.Rest()))
      ensures outcome.NoMem? ==> heap.denied > old(heap.denied)
    {
      hide Heap.Valid, OwnedPtr;
      ghost var rest, cached := file.Rest(), cache[..];
      var len := cache.Length;
      var ok, header := ReadHeader(file);
      if !ok {
        return Dropped;
      }
      var wTotalLength := TotalLength(header[..]);
      ok := Grow(heap, base, len + wTotalLength);
      if !ok {
        return NoMem;
      }
      ok := Store(file, header, len, wTotalLength);
      if !ok {
        return Dropped;
      }
      assert rest[..wTotalLength] == rest[..4] + rest[4..][..wTotalLength - 4];
      return Kept;
    }

    /** The loop of lines 373-401. */
    method Fill(heap: Heap, file: DeviceFile, ghost base: multiset<Ptr>, n: nat)
      returns (outcome: Outcome, ghost blobs: seq<seq<byte>>)
      requires heap.Valid() && file.Valid() && heap.live == base + OwnedPtr(block) && cache.Length == 0
      modifies this`block, this`cache, heap, file
      ensures heap.Valid() && file.Valid() && heap.live == base + OwnedPtr(block)
      ensures heap.denied >= old(heap.denied) && file.shortfalls >= old(file.shortfalls)
      ensures cache == old(cache) || fresh(cache)
      ensures outcome.Kept? ==> Split(old(file.Rest()), n) == Some(blobs) && cache[..] == Flatten(blobs)
      ensures outcome.Dropped? ==> file.shortfalls > old(file.shortfalls) || Split(old(file.Rest()), n).None?
      ensures outcome.NoMem? ==> heap.denied > old(heap.denied)
    {
      hide Heap.Valid, OwnedPtr, Flatten, Blobs, Split;
      ghost var start := file.Rest();
      blobs := [];
      NoBlobs(start);
      for i := 0 to n
        invariant heap.Valid() && file.Valid() && heap.live == base + OwnedPtr(block)
        invariant heap.denied >= old(heap.denied) && file.shortfalls >= old(file.shortfalls)
        invariant cache == old(cache) || fresh(cache)
        invariant |blobs| == i && Blobs(blobs) && cache[..] == Flatten(blobs)
        invariant start == Flatten(blobs) + file.Rest()
      {
        ghost var rest := file.Rest();
        outcome := ReadBlob(heap, file, base);
        if !outcome.Kept? {
          SplitFails(blobs, rest, n);
          return;
        }
        NextBlob(start, blobs, rest);
        blobs := blobs + [rest[..TotalLength(rest)]];
      }
      SplitEnds(blobs, file.Rest());
      return Kept, blobs;
    }

    /**
     Lines 370-408: the device is kept exactly when its file is a device descriptor followed by as many blobs
     as that announces, unless a read falls short or an allocation is denied; a device that is not kept
     takes its cache along.
     */
    method Enumerate(heap: Heap, file: DeviceFile) returns (outcome: Outcome)
      requires heap.Valid() && file.Valid() && block.None? && cache.Length == 0
      requires descriptor.Length == 18 && descriptor != cache
      modifies this`block, this`cache, descriptor, heap, file
      ensures heap.Valid() && file.Valid() && (cache == old(cache) || fresh(cache))
      ensures heap.denied >= old(heap.denied) && file.shortfalls >= old(file.shortfalls)
      ensures outcome.Kept? ==>
                && DeviceBlobs(old(file.Rest())).Some? && Holds(DeviceBlobs(old(file.Rest())).value)
                && descriptor[..] == old(file.Rest())[..18] && heap.live == old(heap.live) + OwnedPtr(block)
      ensures !outcome.Kept? ==> heap.live == old(heap.live)
      ensures outcome.Dropped? ==> file.shortfalls > old(file.shortfalls) || DeviceBlobs(old(file.Rest())).None?
      ensures outcome.NoMem? ==> heap.denied > old(heap.denied)
    {
      ghost var content := file.Rest();
      var r := file.Read(descriptor, 0, 18);
      if r != 18 {
        return Dropped;
      }
      assert descriptor[0..18] == descriptor[..];
      assert descriptor[17] == descriptor[..][17] == content[17];
      ghost var blobs;
      outcome, blobs := Fill(heap, file, heap.live, descriptor[17]);
      if outcome.Kept? {
        SplitSound(content[18..], content[17]);
      } else {
        FreePtr(heap, block);
        Cancel(heap.live, old(heap.live), OwnedPtr(block));
      }
    }

    /** The copy of line 584. */
    method CopyOut(data: array<byte>, at: nat, n: nat)
      requires at + n <= cache.Length && n <= data.Length && data != cache
      modifies data
      ensures data[..n] == cache[at..at + n] && data[n..] == old(data[n..])
    {
      forall k | 0 <= k < n {
        data[k] := cache[at + k];
      }
    }

    /**
     usbyb_get_descriptor_cached: the first bytes of the blob with the index, as many as asked for and there
     are. Nothing else of the caller's buffer changes.
     */
    method Lookup(descType: byte, index: byte, data: array<byte>, length: nat, ghost blobs: seq<seq<byte>>)
      returns (r: int)
      requires Holds(blobs) && length <= data.Length && data != cache && data != descriptor
      modifies data
      ensures descType != 2 ==> r == NOT_SUPPORTED
      ensures descType == 2 && index >= |blobs| ==> r == INVALID_PARAM
      ensures descType == 2 && index < |blobs| ==>
                r == (if length < |blobs[index]| then length else |blobs[index]|) && data[..r] == blobs[index][..r]
      ensures data[if r < 0 then 0 else r..] == old(data[if r < 0 then 0 else r..])
    {
      if descType != CONFIGURATION {
        return NOT_SUPPORTED;
      }
      var cachePtr := 0;
      for i := 0 to descriptor[17]
        invariant i <= index && cachePtr == |Flatten(blobs[..i])|
        invariant data[..] == old(data[..])
      {
        BlobAt(blobs, i);
        assert Blob(blobs[i]) && Flatten(blobs)[cachePtr..][..|blobs[i]|] == blobs[i];
        var wTotalLength := TotalLength(cache[cachePtr..]);
        if i == index {
          var n := if length > wTotalLength then wTotalLength else length;
          Slice(Flatten(blobs), cachePtr, blobs[i], n);
          assert cache[cachePtr..cachePtr + n] == cache[..][cachePtr..cachePtr + n];
          CopyOut(data, cachePtr, n);
          return n;
        }
        cachePtr := cachePtr + wTotalLength;
      }
      return INVALID_PARAM;
    }
  }

  /** Lines 650-660 of src/libusby.c: the header first, and then as many bytes as it announces. */
  method Fetch(dev: CachedDevice, index: byte, stack: HeaderBuffer, ghost blobs: seq<seq<byte>>) returns (f: Fetches)
    requires dev.Holds(blobs)
    ensures f.header.Bytes? <==> index < |blobs|
    ensures f.header.Bytes? ==> Announces(f)
    ensures Raw(f) == if index < |blobs| then Bytes(blobs[index]) else Fail(INVALID_PARAM)
  {
    var header := new byte[6](k requires 0 <= k < 6 => stack[k]);
    var r := dev.Lookup(CONFIGURATION, index, header, 6, blobs);
    if r < 0 {
      return Fetches(stack, Fail(r), _ => Fail(r));
    }
    var wTotalLength := TotalLength(header[..]);
    assert Blob(blobs[index]) && header[2] == header[..r][2] && header[3] == header[..r][3];
    assert wTotalLength == |blobs[index]|;
    var raw := new byte[wTotalLength];
    var r' := dev.Lookup(CONFIGURATION, index, raw, wTotalLength, blobs);
    assert blobs[index][..r'] == blobs[index];
    var blob := raw[..r'];
    f := Fetches(stack, Bytes(header[..r]), (n: nat) => Arrived(Bytes(blob), n));
    assert Header(f)[..r] == header[..r];
  }

  /** libusby_get_config_descriptor_cached on Linux: precisely the blob with the index is parsed. */
  method GetConfigCached(heap: Heap, dev: CachedDevice, index: byte, stack: HeaderBuffer, ghost blobs: seq<seq<byte>>)
    returns (status: Status, config: Option<CConfig>)
    requires heap.Valid() && dev.Holds(blobs)
    modifies heap
    ensures heap.Valid() && heap.denied >= old(heap.denied) && (status.Success? <==> config.Some?)
    ensures index >= |blobs| ==> status == Failed(INVALID_PARAM)
    ensures status.Success? ==>
              && index < |blobs| && ParseConfig(blobs[index]) == Parsed(ConfigOf(config.value))
              && heap.live == old(heap.live) + Owned(config.value)
    ensures index < |blobs| && heap.denied == old(heap.denied) ==>
              && (status.Success? <==> ParseConfig(blobs[index]).Parsed?)
              && (status.ErrorIo? <==> ParseConfig(blobs[index]).Malformed?)
              && (status.OutOfModel? <==> ParseConfig(blobs[index]).Overrun?)
    ensures !status.Success? && !status.OutOfModel? ==> heap.live == old(heap.live)
  {
    hide ParseConfig, Owned;
    var f := Fetch(dev, index, stack, blobs);
    status, config := GetConfig(heap, f);
  }
}
