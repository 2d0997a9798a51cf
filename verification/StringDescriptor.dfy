/**
 libusby_get_string_descriptor_utf8 (src/libusby.c:453-517): the UTF-16LE text of a string descriptor (USB 2.0
 section 9.6.7) as UTF-8.
 */
module StringDescriptor {
  import opened Options
  import opened ConfigGrammar
  import opened Utf8

  const ERROR_IO := -1

  type CodeUnit = u: int | 0 <= u < 0x10000

  // ---------------------------------------------------------------- surrogates

  predicate IsHigh(u: int) {
    0xD800 <= u < 0xDC00
  }

  predicate IsLow(u: int) {
    0xDC00 <= u < 0xE000
  }

  predicate SurrogateFree(us: seq<CodeUnit>) {
    forall k :: 0 <= k < |us| ==> us[k] < 0xD800 || 0xE000 <= us[k]
  }

  /** Every high surrogate is followed by a low one, and every low one follows a high one, section 2.2 of RFC 2781. */
  predicate WellPaired(us: seq<CodeUnit>) {
    && (forall k :: 0 <= k < |us| && 0xD800 <= us[k] <= 0xDBFF ==> k + 1 < |us| && 0xDC00 <= us[k + 1] <= 0xDFFF)
    && (forall k :: 0 <= k < |us| && 0xDC00 <= us[k] <= 0xDFFF ==> k > 0 && 0xD800 <= us[k - 1] <= 0xDBFF)
  }

  /** The surrogate before unit k that waits for its second half, 0 for none. */
  function Waiting(us: seq<CodeUnit>, k: nat): int
    requires k <= |us|
  {
    if k > 0 && IsHigh(us[k - 1]) then us[k - 1] else 0
  }

  /** Among the first k units, exactly those after a high surrogate are low ones. */
  predicate Regular(us: seq<CodeUnit>, k: nat)
    requires k <= |us|
  {
    forall j :: 0 <= j < k ==> (IsLow(us[j]) <==> Waiting(us, j) != 0)
  }

  lemma WellPairedIsRegular(us: seq<CodeUnit>)
    ensures WellPaired(us) <==> Regular(us, |us|) && Waiting(us, |us|) == 0
  {
    if Regular(us, |us|) && Waiting(us, |us|) == 0 {
      forall k | 0 <= k < |us| && IsHigh(us[k])
        ensures k + 1 < |us| && IsLow(us[k + 1])
      {
        assert Waiting(us, k + 1) != 0;
      }
    }
    if WellPaired(us) {
      forall j | 0 <= j < |us|
        ensures IsLow(us[j]) <==> Waiting(us, j) != 0
      {
        assert j > 0 && IsHigh(us[j - 1]) ==> IsLow(us[j]);
      }
    }
  }

  /** The value computed for a pair, line 485. */
  function PairValue(high: int, low: int): CodePoint
    requires IsHigh(high) && IsLow(low)
  {
    (high - 0xD800) * 1024 + (low - 0xDC00)
  }

  /** The code point of a pair, section 2.2 of RFC 2781. */
  function Rfc2781Value(high: int, low: int): CodePoint
    requires IsHigh(high) && IsLow(low)
  {
    0x10000 + (high - 0xD800) * 0x400 + (low - 0xDC00)
  }

  /** Whatever is written for a pair decodes to 0x10000 less than it should: no pair is ever converted right. */
  lemma PairIsNeverRight(high: int, low: int, rest: seq<byte>)
    requires IsHigh(high) && IsLow(low)
    ensures DecodeFirst(Encode(PairValue(high, low)) + rest) ==
            Decoded(Rfc2781Value(high, low) - 0x10000, |Encode(PairValue(high, low))|)
  {
    DecodeEncoded(PairValue(high, low), rest);
  }

  // ---------------------------------------------------------------- lengths

  /** The character that ends with unit k. */
  function CharAt(us: seq<CodeUnit>, k: nat): CodePoint
    requires k < |us|
  {
    if IsLow(us[k]) && k > 0 && IsHigh(us[k - 1]) then PairValue(us[k - 1], us[k]) else us[k]
  }

  /** encoded_len after k units, when everything fits: it is left as it was at a high surrogate. */
  function LastLength(us: seq<CodeUnit>, k: nat): (r: nat)
    requires k <= |us|
    ensures r <= 4
  {
    if k == 0 then 0
    else if IsHigh(us[k - 1]) then LastLength(us, k - 1)
    else |Encode(CharAt(us, k - 1))|
  }

  /** data_len after k units, when everything fits. */
  function OutLength(us: seq<CodeUnit>, k: nat): (r: nat)
    requires k <= |us|
    ensures r <= 4 * k
  {
    if k == 0 then 0 else OutLength(us, k - 1) + LastLength(us, k)
  }

  lemma {:induction false} OutLengthGrows(us: seq<CodeUnit>, j: nat, k: nat)
    requires j <= k <= |us|
    ensures OutLength(us, j) <= OutLength(us, k)
  {
    if j < k {
      OutLengthGrows(us, j, k - 1);
    }
  }

  lemma {:induction false} SurrogateFreeLength(us: seq<CodeUnit>, k: nat)
    requires SurrogateFree(us) && k <= |us|
    ensures OutLength(us, k) == |EncodeAll(us[..k])|
    ensures k > 0 ==> EncodeAll(us[..k]) == EncodeAll(us[..k - 1]) + Encode(us[k - 1])
  {
    if k > 0 {
      SurrogateFreeLength(us, k - 1);
      assert us[..k][..k - 1] == us[..k - 1];
    }
  }

  /** A pair makes the length too large by the length of the character before it. */
  lemma PairRepeatsLength(us: seq<CodeUnit>, k: nat)
    requires k + 2 <= |us| && Regular(us, k + 2) && IsHigh(us[k]) && IsLow(us[k + 1])
    ensures OutLength(us, k + 2) ==
            OutLength(us, k) + (if k == 0 then 0 else |Encode(CharAt(us, k - 1))|)
            + |Encode(PairValue(us[k], us[k + 1]))|
  {
    assert k > 0 ==> !IsHigh(us[k - 1]) by {
      assert IsLow(us[k]) <==> Waiting(us, k) != 0;
    }
  }

  /** The bytes that are written for the first k units. */
  function Written(us: seq<CodeUnit>, k: nat): nat
    requires k <= |us|
  {
    if k == 0 then 0
    else Written(us, k - 1) + if IsHigh(us[k - 1]) then 0 else LastLength(us, k)
  }

  /** The length is that of the bytes written if and only if no pair follows anything; otherwise it is larger. */
  lemma {:induction false} LengthIsWritten(us: seq<CodeUnit>, k: nat)
    requires k <= |us| && Regular(us, k)
    ensures OutLength(us, k) >= Written(us, k)
    ensures OutLength(us, k) == Written(us, k) <==> forall j :: 0 < j < k ==> !IsHigh(us[j])
  {
    if k > 0 {
      LengthIsWritten(us, k - 1);
      if IsHigh(us[k - 1]) && k > 1 {
        assert !IsHigh(us[k - 2]) by {
          assert IsLow(us[k - 1]) <==> Waiting(us, k - 1) != 0;
        }
        assert LastLength(us, k - 1) >= 1;
      }
    }
  }

  /** A letter and the first of all pairs: three bytes are announced for two. */
  lemma PairAfterLetter()
    ensures Regular([0x41, 0xD800, 0xDC00], 3)
    ensures OutLength([0x41, 0xD800, 0xDC00], 3) == 3 && Written([0x41, 0xD800, 0xDC00], 3) == 2
  {
    var us: seq<CodeUnit> := [0x41, 0xD800, 0xDC00];
    assert CharAt(us, 0) == 0x41 && CharAt(us, 2) == 0;
    assert LastLength(us, 1) == LastLength(us, 2) == LastLength(us, 3) == 1;
  }

  /** The code units of the text in the first r bytes of a string descriptor. */
  function Units(buf: seq<byte>, r: nat): (us: seq<CodeUnit>)
    requires r <= |buf| && r % 2 == 0
    ensures |us| == if r < 2 then 0 else (r - 2) / 2
    ensures forall k :: 0 <= k < |us| ==> us[k] == buf[2 + 2 * k] as int + 256 * (buf[3 + 2 * k] as int)
  {
    if r < 2 then []
    else seq((r - 2) / 2, k requires 0 <= k < (r - 2) / 2 =>
               (buf[2 + 2 * k] as int + 256 * (buf[3 + 2 * k] as int)) as CodeUnit)
  }

  // ---------------------------------------------------------------- what should come out

  /** NoRoom: a character would be written where the buffer has no room at all. */
  datatype Conversion = Converted(length: nat) | Failed(code: int) | NoRoom

  function Least(a: int, b: int): int {
    if a < b then a else b
  }

  /** The unit with which the first character ends. */
  function FirstChar(us: seq<CodeUnit>): nat {
    if us != [] && IsHigh(us[0]) then 1 else 0
  }

  /** The first character fills the buffer, which ends the loop whatever follows. */
  predicate StopsAtOnce(us: seq<CodeUnit>, length: int) {
    var k := FirstChar(us);
    k < |us| && Regular(us, k + 1) && |Encode(CharAt(us, k))| >= length
  }

  /** Character k starts where the buffer has ended. */
  predicate NoRoomAt(us: seq<CodeUnit>, k: nat, length: int)
    requires k < |us|
  {
    !IsHigh(us[k]) && Regular(us, k + 1) && OutLength(us, k) >= length
  }

  ghost predicate OutOfRoom(us: seq<CodeUnit>, length: int) {
    exists k: nat :: k < |us| && NoRoomAt(us, k, length)
  }

  /** The outcome for any text and any length of the buffer. */
  ghost function Outcome(us: seq<CodeUnit>, length: int): Conversion {
    if length <= 0 then Converted(0)
    else if StopsAtOnce(us, length) then Converted(length)
    else if OutOfRoom(us, length) then NoRoom
    else if WellPaired(us) then Converted(Least(length, OutLength(us, |us|)))
    else Failed(ERROR_IO)
  }

  /** The bytes that character k may have in the buffer. */
  function Share(us: seq<CodeUnit>, k: nat, length: int): int
    requires k < |us|
  {
    Least(length - OutLength(us, k), |Encode(CharAt(us, k))|)
  }

  /** Character k is in the buffer, as far as it fits. */
  predicate StoredAt(us: seq<CodeUnit>, k: nat, length: int, s: seq<byte>)
    requires k < |us|
  {
    var at, n := OutLength(us, k), Share(us, k, length);
    0 < n && at + n <= |s| && s[at..at + n] == Encode(CharAt(us, k))[..n]
  }

  /** So are all characters that end among the first k units. */
  predicate Stored(us: seq<CodeUnit>, k: nat, length: int, s: seq<byte>)
    requires k <= |us|
  {
    forall j :: 0 <= j < k && !IsHigh(us[j]) ==> StoredAt(us, j, length, s)
  }

  // ---------------------------------------------------------------- the loop

  /** Where the loop is after k units. */
  ghost predicate Progressed(us: seq<CodeUnit>, k: nat, length: int, dataLen: nat, encoded: nat)
    requires k <= |us|
  {
    && Regular(us, k)
    && (forall j :: 0 <= j < k && !IsHigh(us[j]) ==> OutLength(us, j) < length)
    && dataLen <= OutLength(us, k) && encoded <= LastLength(us, k)
    && (dataLen < length ==> dataLen == OutLength(us, k) && encoded == LastLength(us, k))
    && (k > 0 && !IsHigh(us[k - 1]) ==> dataLen == Least(length, OutLength(us, k)))
    && AfterFirst(us, k, length, dataLen, encoded)
  }

  /** The first character decides whether the loop goes on. */
  ghost predicate AfterFirst(us: seq<CodeUnit>, k: nat, length: int, dataLen: nat, encoded: nat)
    requires k <= |us|
  {
    var first := FirstChar(us);
    && (k <= first ==> dataLen == 0 && encoded == 0)
    && (k > first ==> dataLen > 0)
    && (k == first + 1 ==> encoded == Least(length, |Encode(CharAt(us, first))|))
    && (k > first + 1 ==> encoded < length && |Encode(CharAt(us, first))| < length)
  }

  lemma HighStep(us: seq<CodeUnit>, k: nat, length: int, dataLen: nat, encoded: nat)
    requires k < |us| && Progressed(us, k, length, dataLen, encoded) && 0 < length && encoded < length
    requires IsHigh(us[k]) && Waiting(us, k) == 0
    ensures Progressed(us, k + 1, length, dataLen + encoded, encoded)
  {
    NextRegular(us, k);
    hide Encode, CharAt, Regular;
  }

  lemma CharStep(us: seq<CodeUnit>, k: nat, length: int, dataLen: nat, encoded: nat, encoded': nat)
    requires k < |us| && Progressed(us, k, length, dataLen, encoded) && encoded < length && dataLen < length
    requires !IsHigh(us[k]) && (IsLow(us[k]) <==> Waiting(us, k) != 0)
    requires encoded' == Least(length - dataLen, |Encode(CharAt(us, k))|)
    ensures Progressed(us, k + 1, length, dataLen + encoded', encoded')
    ensures dataLen == OutLength(us, k) && encoded' == Share(us, k, length)
  {
    hide OutLength, LastLength, AfterFirst, Regular, Waiting;
    NextOut(us, k);
    NextRegular(us, k);
    CharStepFirst(us, k, length, dataLen, encoded, encoded');
  }

  lemma NextOut(us: seq<CodeUnit>, k: nat)
    requires k < |us| && !IsHigh(us[k])
    ensures OutLength(us, k + 1) == OutLength(us, k) + |Encode(CharAt(us, k))|
    ensures LastLength(us, k + 1) == |Encode(CharAt(us, k))|
  {
  }

  lemma NextRegular(us: seq<CodeUnit>, k: nat)
    requires k < |us| && Regular(us, k) && (IsLow(us[k]) <==> Waiting(us, k) != 0)
    ensures Regular(us, k + 1)
  {
  }

  /** The same for what the first character decides. */
  lemma CharStepFirst(us: seq<CodeUnit>, k: nat, length: int, dataLen: nat, encoded: nat, encoded': nat)
    requires k < |us| && AfterFirst(us, k, length, dataLen, encoded) && encoded < length && dataLen < length
    requires !IsHigh(us[k]) && encoded == LastLength(us, k)
    requires encoded' == Least(length - dataLen, |Encode(CharAt(us, k))|)
    ensures AfterFirst(us, k + 1, length, dataLen + encoded', encoded')
  {
  }

  /** The loop finds no room exactly where the outcome says so. */
  lemma NoRoomOutcome(us: seq<CodeUnit>, k: nat, length: int, dataLen: nat, encoded: nat)
    requires k < |us| && Progressed(us, k, length, dataLen, encoded) && encoded < length <= dataLen
    requires !IsHigh(us[k]) && (IsLow(us[k]) <==> Waiting(us, k) != 0)
    ensures Outcome(us, length) == NoRoom
  {
    hide Encode, CharAt, OutLength, LastLength;
    assert NoRoomAt(us, k, length);
    NotStopped(us, k, length, dataLen, encoded);
  }

  lemma NotStopped(us: seq<CodeUnit>, k: nat, length: int, dataLen: nat, encoded: nat)
    requires k <= |us| && Progressed(us, k, length, dataLen, encoded) && encoded < length
    ensures k > FirstChar(us) ==> !StopsAtOnce(us, length)
    ensures FirstChar(us) < |us| && k <= FirstChar(us) && !Regular(us, FirstChar(us) + 1) ==> !StopsAtOnce(us, length)
  {
  }

  /** No character is out of room among the first k units, nor after a unit that breaks the pairing. */
  lemma NoRoomLater(us: seq<CodeUnit>, k: nat, length: int, dataLen: nat, encoded: nat)
    requires k <= |us| && Progressed(us, k, length, dataLen, encoded)
    requires k == |us| || !Regular(us, k + 1)
    ensures !OutOfRoom(us, length)
  {
  }

  lemma FailedOutcome(us: seq<CodeUnit>, k: nat, length: int, dataLen: nat, encoded: nat)
    requires k < |us| && Progressed(us, k, length, dataLen, encoded) && 0 <= encoded < length
    requires !(IsLow(us[k]) <==> Waiting(us, k) != 0)
    ensures Outcome(us, length) == Failed(ERROR_IO)
  {
    assert !Regular(us, k + 1);
    NotStopped(us, k, length, dataLen, encoded);
    NoRoomLater(us, k, length, dataLen, encoded);
    WellPairedIsRegular(us);
  }

  lemma EndOutcome(us: seq<CodeUnit>, k: nat, length: int, dataLen: nat, encoded: nat)
    requires k <= |us| && 0 < length && Progressed(us, k, length, dataLen, encoded)
    requires encoded >= length || k == |us|
    ensures Outcome(us, length) == if k == |us| && Waiting(us, k) != 0 then Failed(ERROR_IO) else Converted(dataLen)
  {
    hide OutOfRoom;
    if encoded < length {
      NotStopped(us, k, length, dataLen, encoded);
      NoRoomLater(us, k, length, dataLen, encoded);
      WellPairedIsRegular(us);
    }
  }

  /** A character stays in the buffer when only what comes after it changes. */
  lemma StillStored(us: seq<CodeUnit>, j: nat, k: nat, length: int, s: seq<byte>, s': seq<byte>)
    requires j < k <= |us| && !IsHigh(us[j]) && StoredAt(us, j, length, s)
    requires |s'| == |s| && forall i :: 0 <= i < |s| && i < OutLength(us, k) ==> s'[i] == s[i]
    ensures StoredAt(us, j, length, s')
  {
    var at, n := OutLength(us, j), Share(us, j, length);
    OutLengthGrows(us, j + 1, k);
    assert at + n <= OutLength(us, k);
    hide Encode, OutLength;
    assert s'[at..at + n] == s[at..at + n];
  }

  lemma StoredStep(us: seq<CodeUnit>, k: nat, length: int, s: seq<byte>, s': seq<byte>)
    requires k < |us| && Stored(us, k, length, s) && |s'| == |s| && (IsHigh(us[k]) || StoredAt(us, k, length, s'))
    requires forall i :: 0 <= i < |s| && i < OutLength(us, k) ==> s'[i] == s[i]
    ensures Stored(us, k + 1, length, s')
  {
    hide StoredAt;
    forall j | 0 <= j < k && !IsHigh(us[j])
      ensures StoredAt(us, j, length, s')
    {
      StillStored(us, j, k, length, s, s');
    }
  }

  /** Lines 478-502: unit k of the text. */
  method ConvertUnit(data: array<byte>, dataLen: nat, length: int, high: int, encoded: nat, cu: CodeUnit,
                     ghost us: seq<CodeUnit>, ghost k: nat)
    returns (out: Conversion, high': int, encoded': nat)
    requires k < |us| && cu == us[k] && high == Waiting(us, k) && length <= data.Length
    modifies data
    ensures out.Failed? <==> !(IsLow(cu) <==> high != 0)
    ensures out.Failed? ==> out == Failed(ERROR_IO)
    ensures out.NoRoom? <==> !out.Failed? && !IsHigh(cu) && length <= dataLen
    ensures out.Converted? ==> high' == Waiting(us, k + 1)
    ensures out.Converted? && IsHigh(cu) ==> encoded' == encoded && data[..] == old(data[..])
    ensures out.Converted? && !IsHigh(cu) ==>
              && encoded' == Least(length - dataLen, |Encode(CharAt(us, k))|)
              && data[dataLen..dataLen + encoded'] == Encode(CharAt(us, k))[..encoded']
    ensures forall i :: 0 <= i < data.Length && i < dataLen ==> data[i] == old(data[i])
  {
    out, high', encoded' := Converted(0), high, encoded;
    if IsLow(cu) {
      if high == 0 {
        return Failed(ERROR_IO), high, encoded;
      }
      if length - dataLen <= 0 {
        return NoRoom, high, encoded;
      }
      encoded' := EncodeUtf8(data, dataLen, length - dataLen, PairValue(high, cu));
      high' := 0;
    } else if IsHigh(cu) {
      if high != 0 {
        return Failed(ERROR_IO), high, encoded;
      }
      high' := cu;
    } else {
      if high != 0 {
        return Failed(ERROR_IO), high, encoded;
      }
      if length - dataLen <= 0 {
        return NoRoom, high, encoded;
      }
      encoded' := EncodeUtf8(data, dataLen, length - dataLen, cu);
    }
  }

  /**
   The loop of lines 473-513, for any text and any buffer. When the text was accepted, each of its characters is
   at the place that the lengths before it give, as far as it fits.
   */
  method Transcode(buf: seq<byte>, r: nat, data: array<byte>, length: int) returns (out: Conversion)
    requires r <= |buf| && r % 2 == 0 && length <= data.Length
    modifies data
    ensures out == Outcome(Units(buf, r), length)
    ensures out.Converted? && 0 < length ==>
              var us := Units(buf, r);
              if StopsAtOnce(us, length) then StoredAt(us, FirstChar(us), length, data[..])
              else Stored(us, |us|, length, data[..])
  {
    hide Progressed, Outcome, Regular, StoredAt;
    ghost var us := Units(buf, r);
    ghost var k := 0;
    var i, dataLen: nat, encodedLen: nat, highSurrogate := 2, 0, 0, 0;
    Starts(us, length);
    while encodedLen < length && i < r
      decreases r - i
      invariant i == 2 + 2 * k && k <= |us| && highSurrogate == Waiting(us, k)
      invariant 0 < length ==> Progressed(us, k, length, dataLen, encodedLen) && Stored(us, k, length, data[..])
      invariant length <= 0 ==> dataLen == 0 && highSurrogate == 0
    {
      var cu: CodeUnit := buf[i] as int + 256 * (buf[i + 1] as int);
      ghost var encoded, before := encodedLen, data[..];
      out, highSurrogate, encodedLen := ConvertUnit(data, dataLen, length, highSurrogate, encodedLen, cu, us, k);
      if out.Failed? {
        FailedOutcome(us, k, length, dataLen, encoded);
        return;
      }
      if out.NoRoom? {
        NoRoomOutcome(us, k, length, dataLen, encoded);
        return;
      }
      Moves(us, k, length, dataLen, encoded, encodedLen, before, data[..]);
      dataLen := dataLen + encodedLen;
      i := i + 2;
      k := k + 1;
    }
    if 0 < length {
      EndOutcome(us, k, length, dataLen, encodedLen);
      Kept(us, k, length, dataLen, encodedLen, data[..]);
    } else {
      NoBuffer(us, length);
    }
    if i == r && highSurrogate != 0 {
      return Failed(ERROR_IO);
    }
    return Converted(dataLen);
  }

  lemma Starts(us: seq<CodeUnit>, length: int)
    ensures 0 < length ==> Progressed(us, 0, length, 0, 0)
  {
  }

  lemma NoBuffer(us: seq<CodeUnit>, length: int)
    ensures length <= 0 ==> Outcome(us, length) == Converted(0)
  {
  }

  lemma Moves(us: seq<CodeUnit>, k: nat, length: int, dataLen: nat, encoded: nat, encoded': nat, s: seq<byte>,
              s': seq<byte>)
    requires k < |us| && 0 < length <= |s| == |s'| && encoded < length && Progressed(us, k, length, dataLen, encoded)
    requires Stored(us, k, length, s) && (IsLow(us[k]) <==> Waiting(us, k) != 0)
    requires if IsHigh(us[k]) then encoded' == encoded && s' == s
             else && dataLen < length && encoded' == Least(length - dataLen, |Encode(CharAt(us, k))|)
                  && s'[dataLen..dataLen + encoded'] == Encode(CharAt(us, k))[..encoded']
                  && forall i :: 0 <= i < |s| && i < dataLen ==> s'[i] == s[i]
    ensures Progressed(us, k + 1, length, dataLen + encoded', encoded') && Stored(us, k + 1, length, s')
  {
    hide Progressed, Stored, StoredAt, Encode, OutLength;
    if IsHigh(us[k]) {
      HighStep(us, k, length, dataLen, encoded);
    } else {
      CharStep(us, k, length, dataLen, encoded, encoded');
      CharStored(us, k, length, s');
    }
    StoredStep(us, k, length, s, s');
  }

  lemma CharStored(us: seq<CodeUnit>, k: nat, length: int, s: seq<byte>)
    requires k < |us| && OutLength(us, k) < length <= |s|
    requires var at, n := OutLength(us, k), Share(us, k, length); s[at..at + n] == Encode(CharAt(us, k))[..n]
    ensures StoredAt(us, k, length, s)
  {
  }

  /** What the loop leaves in the buffer where it ends. */
  lemma Kept(us: seq<CodeUnit>, k: nat, length: int, dataLen: nat, encoded: nat, s: seq<byte>)
    requires k <= |us| && 0 < length && Progressed(us, k, length, dataLen, encoded) && Stored(us, k, length, s)
    requires encoded >= length || k == |us|
    ensures if StopsAtOnce(us, length) then StoredAt(us, FirstChar(us), length, s) else Stored(us, |us|, length, s)
  {
    hide StoredAt;
    if StopsAtOnce(us, length) {
      assert !IsHigh(us[FirstChar(us)]) by {
        assert IsLow(us[FirstChar(us)]) <==> Waiting(us, FirstChar(us)) != 0;
      }
    }
  }

  // ---------------------------------------------------------------- what follows

  /** With four bytes for each unit, a text is accepted exactly if its surrogates are well paired. */
  lemma EnoughRoom(us: seq<CodeUnit>, length: int)
    requires length >= 4 * |us|
    ensures Outcome(us, length) == if WellPaired(us) then Converted(OutLength(us, |us|)) else Failed(ERROR_IO)
  {
    WellPairedIsRegular(us);
    if us != [] && StopsAtOnce(us, length) {
      assert |us| == 1 && FirstChar(us) == 0;
      assert OutLength(us, 1) == LastLength(us, 1);
    }
  }

  /** A buffer that holds the first character, but no more than all without the last one. */
  predicate TooShort(us: seq<CodeUnit>, length: int) {
    us != [] && |Encode(us[0])| < length <= |EncodeAll(us[..|us| - 1])|
  }

  /** Without surrogates, the code writes past the end of a buffer exactly if that is too short in this sense. */
  lemma SurrogateFreeOutcome(us: seq<CodeUnit>, length: int)
    requires SurrogateFree(us) && length >= 0
    ensures Outcome(us, length) == if TooShort(us, length) then NoRoom else Converted(Least(length, |EncodeAll(us)|))
  {
    hide EncodeAll;
    assert us[..|us|] == us;
    SurrogateFreeLength(us, |us|);
    WellPairedIsRegular(us);
    assert Regular(us, |us|) && Waiting(us, |us|) == 0;
    if us != [] {
      var n := |us| - 1;
      SurrogateFreeLength(us, n);
      OutLengthGrows(us, 1, |us|);
      assert OutLength(us, 1) == |Encode(us[0])|;
      if OutLength(us, n) >= length {
        assert NoRoomAt(us, n, length);
      }
      forall k: nat | k < |us| && NoRoomAt(us, k, length)
        ensures OutLength(us, n) >= length
      {
        OutLengthGrows(us, k, n);
      }
    }
  }

  /** Two bytes are too short for three letters. */
  lemma LettersWithoutRoom()
    ensures Outcome([0x61, 0x62, 0x63], 2) == NoRoom
  {
    var us: seq<CodeUnit> := [0x61, 0x62, 0x63];
    assert us[..2] == [0x61, 0x62] && us[..2][..1] == [0x61] && us[..2][..1][..0] == [];
    SurrogateFreeOutcome(us, 2);
  }

  lemma OneMoreFits(a: seq<byte>, e: seq<byte>, length: int, s: seq<byte>)
    requires |a| < length <= |s| && s[..|a|] == a
    requires var n := Least(length - |a|, |e|); s[|a|..|a| + n] == e[..n]
    ensures var fits := Least(length, |a| + |e|); s[..fits] == (a + e)[..fits]
  {
    var n := Least(length - |a|, |e|);
    assert s[..|a| + n] == s[..|a|] + s[|a|..|a| + n];
  }

  /** Without surrogates, the characters in the buffer are the encoded text, as far as it fits. */
  lemma {:induction false} StoredText(us: seq<CodeUnit>, k: nat, length: int, s: seq<byte>)
    requires SurrogateFree(us) && k <= |us| && 0 < length <= |s| && Stored(us, k, length, s)
    ensures OutLength(us, k) == |EncodeAll(us[..k])|
    ensures var fits := Least(length, OutLength(us, k)); s[..fits] == EncodeAll(us[..k])[..fits]
  {
    hide EncodeAll, Encode, OutLength;
    SurrogateFreeLength(us, k);
    if k > 0 {
      StoredText(us, k - 1, length, s);
      SurrogateFreeLength(us, k - 1);
      assert StoredAt(us, k - 1, length, s);
      OneMoreFits(EncodeAll(us[..k - 1]), Encode(us[k - 1]), length, s);
    }
  }

  /** When the loop stopped at once, what it stored is the beginning of the encoded text. */
  lemma FirstStored(us: seq<CodeUnit>, length: int, s: seq<byte>)
    requires SurrogateFree(us) && 0 < length <= |s| && StopsAtOnce(us, length) && StoredAt(us, FirstChar(us), length, s)
    ensures length <= |EncodeAll(us)| && s[..length] == EncodeAll(us)[..length]
  {
    hide Encode, EncodeAll, LastLength;
    EncodeAllFirst(us);
    assert FirstChar(us) == 0 && CharAt(us, 0) == us[0] && OutLength(us, 0) == 0;
    assert s[0..length] == s[..length];
  }

  /** Where the text ends in a buffer whose first r bytes came from the device. */
  function TextEnd(buf: seq<byte>, r: int): (end: Option<nat>)
    requires r <= |buf| && |buf| == 256
    ensures end.Some? ==> end.value <= r && end.value % 2 == 0
  {
    if r < 2 || buf[1] != 3 then None
    else
      var m := if r > buf[0] then buf[0] as int else r;
      if m % 2 != 0 then None else Some(m)
  }

  /** Refused are answers of less than two bytes or of another type, and texts that end within a unit. */
  predicate Refused(buf: seq<byte>, r: int)
    requires r <= |buf| && |buf| == 256
  {
    r < 2 || buf[1] != 3 || Least(r, buf[0]) % 2 == 1
  }

  lemma RefusedExactly(buf: seq<byte>, r: int)
    requires r <= |buf| && |buf| == 256
    ensures TextEnd(buf, r).None? <==> Refused(buf, r)
    ensures TextEnd(buf, r).Some? ==> TextEnd(buf, r).value == Least(r, buf[0])
  {
  }

  /** The units of a text, low byte first. */
  function PrintUnits(us: seq<CodeUnit>): (s: seq<byte>)
    ensures |s| == 2 * |us|
  {
    if us == [] then [] else [us[0] % 256, us[0] / 256] + PrintUnits(us[1..])
  }

  /** A string descriptor, section 9.6.7 of USB 2.0. */
  function PrintString(us: seq<CodeUnit>): seq<byte>
    requires 2 + 2 * |us| < 256
  {
    [2 + 2 * |us|, 3] + PrintUnits(us)
  }

  lemma {:induction false} PrintedUnit(us: seq<CodeUnit>, k: nat)
    requires k < |us|
    ensures us[k] == PrintUnits(us)[2 * k] as int + 256 * (PrintUnits(us)[2 * k + 1] as int)
  {
    if k > 0 {
      PrintedUnit(us[1..], k - 1);
    }
  }

  /** From an answer that begins with the descriptor of a text, that text is taken. */
  lemma PrintedUnits(us: seq<CodeUnit>, buf: seq<byte>, r: int)
    requires 2 + 2 * |us| < 256 && 2 + 2 * |us| <= r <= |buf| && |buf| == 256 && PrintString(us) <= buf
    ensures TextEnd(buf, r) == Some(2 + 2 * |us|) && Units(buf, 2 + 2 * |us|) == us
  {
    var s := PrintString(us);
    assert buf[0] == s[0] && buf[1] == s[1];
    forall k | 0 <= k < |us|
      ensures Units(buf, 2 + 2 * |us|)[k] == us[k]
    {
      PrintedUnit(us, k);
      assert buf[2 + 2 * k] == s[2 + 2 * k] && buf[3 + 2 * k] == s[3 + 2 * k];
    }
  }

  /** Everything that was converted is in the buffer, and can be decoded if it is all of the text. */
  ghost predicate HoldsText(us: seq<CodeUnit>, out: Conversion, s: seq<byte>) {
    && out.Converted? && out.length <= |s| && out.length <= |EncodeAll(us)|
    && s[..out.length] == EncodeAll(us)[..out.length]
    && (out.length == |EncodeAll(us)| ==> Decode(s[..out.length]) == Some(us))
  }

  lemma TextConverted(us: seq<CodeUnit>, length: int, s: seq<byte>)
    requires SurrogateFree(us) && length <= |s| && Outcome(us, length).Converted?
    requires 0 < length ==>
               if StopsAtOnce(us, length) then StoredAt(us, FirstChar(us), length, s) else Stored(us, |us|, length, s)
    ensures HoldsText(us, Outcome(us, length), s)
  {
    hide StoredAt, Decode;
    assert us[..|us|] == us;
    DecodeEncodeAll(us);
    if 0 < length {
      SurrogateFreeOutcome(us, length);
      if StopsAtOnce(us, length) {
        FirstStored(us, length, s);
      } else {
        StoredText(us, |us|, length, s);
      }
    }
    assert EncodeAll(us)[..|EncodeAll(us)|] == EncodeAll(us);
  }

  /**
   libusby_get_string_descriptor_utf8 after the request, which left `buf` and returned r, for any buffer of the
   caller. With four bytes of room for each code unit, a text is accepted exactly if its surrogates are well paired,
   and takes no more than that room; without surrogates, what was converted can be decoded again.
   */
  method GetStringUtf8(buf: seq<byte>, r: int, data: array<byte>, length: int) returns (out: Conversion)
    requires r <= |buf| && |buf| == 256 && length <= data.Length
    modifies data
    ensures r < 0 ==> out == Failed(r)
    ensures r >= 0 && Refused(buf, r) ==> out == Failed(-1)
    ensures TextEnd(buf, r).Some? ==>
              var us := Units(buf, TextEnd(buf, r).value);
              && out == Outcome(us, length)
              && (length >= 4 * |us| ==>
                    out == if WellPaired(us) then Converted(OutLength(us, |us|)) else Failed(ERROR_IO))
              && (SurrogateFree(us) && length >= 0 ==>
                    if TooShort(us, length) then out == NoRoom else HoldsText(us, out, data[..]))
  {
    RefusedExactly(buf, r);
    if r < 0 {
      return Failed(r);
    }
    if r < 2 || buf[1] != 3 {
      return Failed(ERROR_IO);
    }
    var m := r;
    if m > buf[0] {
      m := buf[0];
    }
    if m % 2 != 0 {
      return Failed(ERROR_IO);
    }
    hide Outcome, StoredAt, HoldsText, TooShort, WellPaired, Refused;
    out := Transcode(buf, m, data, length);
    ghost var us := Units(buf, m);
    if length >= 4 * |us| {
      EnoughRoom(us, length);
    }
    if SurrogateFree(us) && length >= 0 {
      SurrogateFreeOutcome(us, length);
      if out.Converted? {
        TextConverted(us, length, data[..]);
      }
    }
  }

  /** A text without surrogates comes out as it was printed, whatever follows it in the answer. */
  method GetPrintedString(ghost us: seq<CodeUnit>, buf: seq<byte>, r: int, data: array<byte>, length: int)
    returns (out: Conversion)
    requires 2 + 2 * |us| < 256 && 2 + 2 * |us| <= r <= |buf| && |buf| == 256 && PrintString(us) <= buf
    requires SurrogateFree(us) && 4 * |us| <= length <= data.Length
    modifies data
    ensures out.Converted? && out.length <= data.Length && Decode(data[..out.length]) == Some(us)
  {
    PrintedUnits(us, buf, r);
    hide Outcome, HoldsText, TooShort, WellPaired, Units, TextEnd, PrintString, Decode;
    out := GetStringUtf8(buf, r, data, length);
    WholeText(us, length, out, data[..]);
    assert data[..][..out.length] == data[..out.length];
  }

  /** With room for all of the text, what is in the buffer decodes to it. */
  lemma WholeText(us: seq<CodeUnit>, length: int, out: Conversion, s: seq<byte>)
    requires SurrogateFree(us) && length >= 4 * |us|
    requires out == if WellPaired(us) then Converted(OutLength(us, |us|)) else Failed(ERROR_IO)
    requires if TooShort(us, length) then out == NoRoom else HoldsText(us, out, s)
    ensures out.Converted? && out.length <= |s| && Decode(s[..out.length]) == Some(us)
  {
    hide EncodeAll, Encode, Decode, OutLength;
    SurrogateFreeLength(us, |us|);
    assert us[..|us|] == us;
  }
}
