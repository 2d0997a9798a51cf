/** encode_utf8 (src/libusby.c:414-451), and a decoder for what it writes. */
module Utf8 {
  import opened Options
  import opened ConfigGrammar

  type CodePoint = c: int | 0 <= c < 0x110000

  // ---------------------------------------------------------------- UTF-8

  /** The bytes encode_utf8 writes when there is room for them, with its bounds for each length. */
  function Encode(cp: CodePoint): (r: seq<byte>)
    ensures 1 <= |r| <= 4
    ensures cp < 0xffff ==> |r| <= 3
  {
    if cp < 0x7f then [cp]
    else if cp < 0x7ff then [0xC0 + cp / 64, 0x80 + cp % 64]
    else if cp < 0xffff then [0xE0 + cp / 4096, 0x80 + cp / 64 % 64, 0x80 + cp % 64]
    else [0xF0 + cp / 262144, 0x80 + cp / 4096 % 64, 0x80 + cp / 64 % 64, 0x80 + cp % 64]
  }

  /** How many bytes section 3 of RFC 3629 gives a code point. */
  function RfcLength(cp: CodePoint): nat {
    if cp <= 0x7F then 1 else if cp <= 0x7FF then 2 else if cp <= 0xFFFF then 3 else 4
  }

  /** The encoding has the RFC's length, except for three code points, which take one byte more. */
  lemma ShortestExceptThree(cp: CodePoint)
    ensures |Encode(cp)| == RfcLength(cp) <==> cp !in {0x7f, 0x7ff, 0xffff}
    ensures |Encode(cp)| != RfcLength(cp) ==> |Encode(cp)| == RfcLength(cp) + 1
  {
  }

  /** encode_utf8: as much of the encoding as fits, and nothing else. */
  method EncodeUtf8(data: array<byte>, at: nat, length: int, cp: CodePoint) returns (res: nat)
    requires 0 < length && at + length <= data.Length
    modifies data
    ensures res == if length < |Encode(cp)| then length else |Encode(cp)|
    ensures forall k :: 0 <= k < res ==> data[at + k] == Encode(cp)[k]
    ensures forall k :: 0 <= k < data.Length && !(at <= k < at + res) ==> data[k] == old(data[k])
  {
    res := 0;
    if cp < 0x7f {
      data[at + res], res := cp, res + 1;
    } else if cp < 0x7ff {
      data[at + res], res := 0xC0 + cp / 64, res + 1;
      if res < length {
        data[at + res], res := 0x80 + cp % 64, res + 1;
      }
    } else if cp < 0xffff {
      data[at + res], res := 0xE0 + cp / 4096, res + 1;
      if res < length {
        data[at + res], res := 0x80 + cp / 64 % 64, res + 1;
      }
      if res < length {
        data[at + res], res := 0x80 + cp % 64, res + 1;
      }
    } else {
      data[at + res], res := 0xF0 + cp / 262144, res + 1;
      if res < length {
        data[at + res], res := 0x80 + cp / 4096 % 64, res + 1;
      }
      if res < length {
        data[at + res], res := 0x80 + cp / 64 % 64, res + 1;
      }
      if res < length {
        data[at + res], res := 0x80 + cp % 64, res + 1;
      }
    }
  }

  // ---------------------------------------------------------------- a decoder

  datatype Decoded = Decoded(cp: CodePoint, used: nat) | Undecodable

  predicate Continuation(b: byte) {
    0x80 <= b < 0xC0
  }

  /** The first code point of a byte string, by the lead byte alone: longer forms than needed are accepted. */
  function DecodeFirst(s: seq<byte>): (d: Decoded)
    ensures d.Decoded? ==> 1 <= d.used <= |s|
  {
    if s == [] then Undecodable
    else if s[0] < 0x80 then Decoded(s[0], 1)
    else if 0xC0 <= s[0] < 0xE0 && |s| >= 2 && Continuation(s[1]) then
      Decoded((s[0] as int - 0xC0) * 64 + (s[1] as int - 0x80), 2)
    else if 0xE0 <= s[0] < 0xF0 && |s| >= 3 && Continuation(s[1]) && Continuation(s[2]) then
      Decoded((s[0] as int - 0xE0) * 4096 + (s[1] as int - 0x80) * 64 + (s[2] as int - 0x80), 3)
    else if 0xF0 <= s[0] <= 0xF4 && |s| >= 4 && Continuation(s[1]) && Continuation(s[2]) && Continuation(s[3]) then
      var cp := (s[0] as int - 0xF0) * 262144 + (s[1] as int - 0x80) * 4096
                + (s[2] as int - 0x80) * 64 + (s[3] - 0x80);
      if cp < 0x110000 then Decoded(cp, 4) else Undecodable
    else Undecodable
  }

  /** All code points of a byte string, if it decodes to its end. */
  function Decode(s: seq<byte>): Option<seq<CodePoint>>
    decreases |s|
  {
    if s == [] then Some([])
    else
      var d := DecodeFirst(s);
      if d.Undecodable? then None
      else
        match Decode(s[d.used..])
        case None => None
        case Some(cps) => Some([d.cp] + cps)
  }

  function EncodeAll(cps: seq<CodePoint>): (r: seq<byte>)
    ensures |r| <= 4 * |cps|
  {
    if cps == [] then [] else EncodeAll(cps[..|cps| - 1]) + Encode(cps[|cps| - 1])
  }

  lemma DecodeEncoded(cp: CodePoint, rest: seq<byte>)
    ensures DecodeFirst(Encode(cp) + rest) == Decoded(cp, |Encode(cp)|)
  {
    var s := Encode(cp) + rest;
    assert s[..|Encode(cp)|] == Encode(cp);
    assert s[0] == Encode(cp)[0];
    if cp < 0x7f {
    } else if cp < 0x7ff {
      assert s[1] == 0x80 + cp % 64;
    } else if cp < 0xffff {
      assert s[1] == 0x80 + cp / 64 % 64 && s[2] == 0x80 + cp % 64;
      assert cp / 64 / 64 == cp / 4096;
    } else {
      assert s[1] == 0x80 + cp / 4096 % 64 && s[2] == 0x80 + cp / 64 % 64 && s[3] == 0x80 + cp % 64;
      assert cp / 64 / 64 == cp / 4096 && cp / 4096 / 64 == cp / 262144;
    }
  }

  lemma {:induction false} EncodeAllFirst(cps: seq<CodePoint>)
    requires cps != []
    ensures EncodeAll(cps) == Encode(cps[0]) + EncodeAll(cps[1..])
  {
    if |cps| > 1 {
      EncodeAllFirst(cps[..|cps| - 1]);
      assert cps[..|cps| - 1][1..] == cps[1..][..|cps| - 2];
    }
  }

  /** The decoder reads what was encoded to its end and recovers it. */
  lemma {:induction false} DecodeEncodeAll(cps: seq<CodePoint>)
    ensures Decode(EncodeAll(cps)) == Some(cps)
  {
    if cps != [] {
      EncodeAllFirst(cps);
      DecodeEncoded(cps[0], EncodeAll(cps[1..]));
      assert EncodeAll(cps) != [] && EncodeAll(cps)[|Encode(cps[0])|..] == EncodeAll(cps[1..]);
      assert [cps[0]] + cps[1..] == cps;
      DecodeEncodeAll(cps[1..]);
    }
  }
}
