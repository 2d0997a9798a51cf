/**
 Requests for descriptors into a buffer on the stack, where a short answer leaves the rest of the buffer as it
 was, and the device descriptor of an open device (src/libusby.c:307-335).
 */
module DescriptorRequests {
  import opened Options
  import opened ConfigGrammar
  import opened DeviceNodes
  import opened DeviceRegistry

  /** The result of a descriptor request: bytes, or a negative error code. */
  datatype Answer = Bytes(data: seq<byte>) | Fail(code: int)

  /** What arrives of an answer when n bytes were asked for. */
  function Arrived(a: Answer, n: nat): (r: Answer)
    ensures r.Bytes? ==> |r.data| <= n
  {
    if a.Bytes? && |a.data| > n then Bytes(a.data[..n]) else a
  }

  /** The buffer after a request for as many bytes as it has. */
  function Filled(buffer: seq<byte>, a: Answer): (r: seq<byte>)
    requires a.Bytes?
    ensures |r| == |buffer| && r[..|Arrived(a, |buffer|).data|] == Arrived(a, |buffer|).data
  {
    var data := Arrived(a, |buffer|).data;
    data + buffer[|data|..]
  }

  /** A byte of the buffer comes from the device, whatever was there before, if and only if the answer has it. */
  lemma FilledAt(buffer: seq<byte>, a: Answer, k: nat)
    requires a.Bytes? && k < |buffer|
    ensures k < |a.data| ==> Filled(buffer, a)[k] == a.data[k]
    ensures k < |a.data| <==>
            forall other: seq<byte> :: |other| == |buffer| ==> Filled(other, a)[k] == Filled(buffer, a)[k]
  {
    if k >= |a.data| {
      var v: byte := if buffer[k] == 0 then 1 else 0;
      assert Filled(buffer[k := v], a)[k] == v;
    }
  }

  // ---------------------------------------------------------------- the device descriptor

  /** What the buffer of libusby_get_device_descriptor held before the request, and the answer. */
  datatype Request = Request(stack: Descriptor, answer: Answer)

  /** The buffer after the request, if that succeeds. */
  function Received(q: Request): Option<Descriptor> {
    if q.answer.Fail? then None else Some(Filled(q.stack, q.answer))
  }

  /** What is received is the device's own descriptor if and only if the answer has all of its 18 bytes. */
  lemma DescriptorIsAnswered(q: Request)
    requires q.answer.Bytes?
    ensures |q.answer.data| >= 18 ==> Received(q) == Some(q.answer.data[..18])
    ensures |q.answer.data| >= 18 <==>
            forall stack: Descriptor :: Received(q.(stack := stack)) == Received(q)
  {
    if |q.answer.data| >= 18 {
      assert Filled(q.stack, q.answer) == q.answer.data[..18];
    } else {
      var v: byte := if q.stack[17] == 0 then 1 else 0;
      var stale: Descriptor := q.stack[17 := v];
      assert Received(q.(stack := stale)).value[17] == v && Received(q).value[17] == q.stack[17];
    }
  }

  /** Whether the descriptor is accepted is for the device to say if and only if the answer is not empty. */
  lemma AcceptedByAnswer(q: Request)
    requires q.answer.Bytes?
    ensures q.answer.data != [] ==> Received(q).value[0] == q.answer.data[0]
    ensures q.answer.data != [] <==>
            forall stack: Descriptor ::
              (Received(q.(stack := stack)).value[0] == 18) == (Received(q).value[0] == 18)
  {
    if q.answer.data == [] {
      var stale: Descriptor := q.stack[0 := if q.stack[0] == 18 then 0 else 18];
      assert Received(q.(stack := stale)).value[0] == stale[0] && Received(q).value[0] == q.stack[0];
    }
  }

  /** A one-byte answer is accepted, and what becomes the vendor id was in the buffer before. */
  lemma StaleIds(stack: Descriptor)
    ensures var desc := Received(Request(stack, Bytes([18]))).value;
            desc[0] == 18 && desc[8] == stack[8] && desc[9] == stack[9]
  {
  }

  /** libusby_get_device_descriptor: a descriptor, the error code of the request, or an answer that is no descriptor. */
  datatype Obtained = Got(desc: Descriptor) | Refused(code: int) | NotADescriptor

  function Asked(cached: Descriptor, q: Request): Obtained {
    if cached[0] == 18 then Got(cached)
    else if q.answer.Fail? then Refused(q.answer.code)
    else if Received(q).value[0] == 18 then Got(Received(q).value)
    else NotADescriptor
  }

  /** What the device descriptor field is after asking the device, where it holds none. */
  function Fetched(cached: Descriptor, q: Request): Descriptor {
    if Asked(cached, q).Got? then Asked(cached, q).desc else cached
  }

  /** A descriptor that was obtained is kept: asking again gives the same, whatever the device answers then. */
  lemma AskedOnce(cached: Descriptor, q: Request, again: Request)
    ensures Asked(cached, q).Got? <==> Fetched(cached, q)[0] == 18
    ensures Asked(cached, q).Got? ==> Asked(Fetched(cached, q), again) == Asked(cached, q)
    ensures !Asked(cached, q).Got? ==> Asked(Fetched(cached, q), again) == Asked(cached, again)
  {
  }

  /** Where none is cached: a full answer that begins with 18 is the descriptor, and a refusal keeps its code. */
  lemma AskedFresh(cached: Descriptor, q: Request)
    requires cached[0] != 18
    ensures q.answer.Fail? ==> Asked(cached, q) == Refused(q.answer.code) && Fetched(cached, q) == cached
    ensures q.answer.Bytes? && |q.answer.data| == 18 && q.answer.data[0] == 18 ==>
              Asked(cached, q) == Got(q.answer.data) && Fetched(cached, q) == q.answer.data
    ensures q.answer.Bytes? && q.answer.data != [] && q.answer.data[0] != 18 ==>
              Asked(cached, q) == NotADescriptor && Fetched(cached, q) == cached
  {
    if q.answer.Bytes? {
      if |q.answer.data| >= 18 {
        assert Filled(q.stack, q.answer) == q.answer.data[..18];
      } else if q.answer.data != [] {
        AcceptedByAnswer(q);
      }
    }
  }

  method GetDeviceDescriptor(ctx: Context, h: Handle, q: Request, ghost refs: multiset<Device>) returns (r: Obtained)
    requires ctx.Sound(refs)
    modifies h.dev`desc
    ensures ctx.Sound(refs) && r == Asked(old(h.dev.desc), q) && h.dev.desc == Fetched(old(h.dev.desc), q)
  {
    if h.dev.desc[0] == 18 {
      return Got(h.dev.desc);
    }
    if q.answer.Fail? {
      return Refused(q.answer.code);
    }
    hide Context.Sound;
    var ok := ctx.SanitizeDescriptor(h.dev, Filled(q.stack, q.answer), refs);
    return if ok then Got(h.dev.desc) else NotADescriptor;
  }
}
