/**
 The configuration descriptor of USB 2.0 (sections 9.6.3, 9.6.5 and 9.6.6) as a byte string and as a
 tree, and what usbyi_sanitize_config_descriptor (src/libusby.c:519-616) makes of the former.
 */
module ConfigGrammar {
  import opened Options

  type byte = x: int | 0 <= x < 256

  const CONFIGURATION: byte := 2
  const INTERFACE: byte := 4
  const ENDPOINT: byte := 5

  /** An alternate setting: the nine bytes of its interface descriptor and its endpoint descriptors. */
  datatype AltSetting = AltSetting(header: seq<byte>, endpoints: seq<seq<byte>>)

  datatype Config = Config(header: seq<byte>, interfaces: seq<seq<AltSetting>>)

  /** Overrun: the code would store an endpoint outside the array allocated for it. */
  datatype Verdict = Parsed(config: Config) | Malformed | Overrun

  // ---------------------------------------------------------------- the parser

  /** The interfaces read so far, and the interface the last setting belongs to. */
  datatype Scan = Scan(interfaces: seq<seq<AltSetting>>, open: Option<nat>)

  datatype ScanResult = Going(scan: Scan) | Bad | Outside

  ghost predicate ScanOk(sc: Scan, n: nat) {
    && |sc.interfaces| == n
    && (sc.open.Some? ==> sc.open.value < n && sc.interfaces[sc.open.value] != [])
    && (forall i, j :: 0 <= i < n && 0 <= j < |sc.interfaces[i]| ==> |sc.interfaces[i][j].header| == 9)
    && 0 <= Missing(sc)
  }

  /** The setting that receives endpoints. */
  function Current(sc: Scan): AltSetting
    requires sc.open.Some? && sc.open.value < |sc.interfaces| && sc.interfaces[sc.open.value] != []
  {
    var alts := sc.interfaces[sc.open.value];
    alts[|alts| - 1]
  }

  /** How many endpoints are still to come for the last setting. */
  function Missing(sc: Scan): int
    requires sc.open.Some? ==>
               && sc.open.value < |sc.interfaces| && sc.interfaces[sc.open.value] != []
               && |Current(sc).header| >= 5
  {
    if sc.open.None? then 0 else Current(sc).header[4] - |Current(sc).endpoints|
  }

  function AddSetting(sc: Scan, m: nat, header: seq<byte>): Scan
    requires m < |sc.interfaces|
  {
    Scan(sc.interfaces[m := sc.interfaces[m] + [AltSetting(header, [])]], Some(m))
  }

  function AddEndpoint(sc: Scan, endpoint: seq<byte>): Scan
    requires sc.open.Some? && sc.open.value < |sc.interfaces| && sc.interfaces[sc.open.value] != []
  {
    var m := sc.open.value;
    var alts, cur := sc.interfaces[m], Current(sc);
    Scan(sc.interfaces[m := alts[..|alts| - 1] + [cur.(endpoints := cur.endpoints + [endpoint])]], sc.open)
  }

  /** One descriptor, lines 548-592. */
  function StepBlock(sc: Scan, n: nat, b: seq<byte>): (r: ScanResult)
    requires ScanOk(sc, n) && |b| >= 2 && |b| == b[0]
    ensures r.Going? ==> ScanOk(r.scan, n)
  {
    if b[1] == INTERFACE then
      if sc.open.Some? && Missing(sc) != 0 then Bad
      else if b[0] != 9 || b[2] >= n || b[3] != |sc.interfaces[b[2]]| then Bad
      else Going(AddSetting(sc, b[2], b))
    else if b[1] == ENDPOINT then
      if b[0] != 7 then Bad
      else if sc.open.None? || Missing(sc) <= 0 then Outside
      else Going(AddEndpoint(sc, b))
    else Going(sc)
  }

  /** The loop of lines 542-596. */
  function ScanBytes(sc: Scan, n: nat, s: seq<byte>): (r: ScanResult)
    requires ScanOk(sc, n)
    ensures r.Going? ==> ScanOk(r.scan, n)
    decreases |s|
  {
    if s == [] then Going(sc)
    else if s[0] > |s| || s[0] < 2 then Bad
    else
      var r := StepBlock(sc, n, s[..s[0]]);
      if r.Going? then ScanBytes(r.scan, n, s[s[0]..]) else r
  }

  predicate EveryInterfaceHasSetting(interfaces: seq<seq<AltSetting>>) {
    forall m :: 0 <= m < |interfaces| ==> interfaces[m] != []
  }

  function Empty(n: nat): (r: seq<seq<AltSetting>>)
    ensures |r| == n && forall m :: 0 <= m < n ==> r[m] == []
  {
    seq(n, _ => [])
  }

  /** usbyi_sanitize_config_descriptor when every allocation succeeds. */
  function ParseConfig(s: seq<byte>): Verdict {
    if |s| < 9 || s[1] != CONFIGURATION || s[0] != 9 then Malformed
    else
      var n := s[4];
      match ScanBytes(Scan(Empty(n), None), n, s[9..])
      case Bad => Malformed
      case Outside => Overrun
      case Going(sc) =>
        if Missing(sc) != 0 || !EveryInterfaceHasSetting(sc.interfaces) then Malformed
        else Parsed(Config(s[..9], sc.interfaces))
  }

  // ---------------------------------------------------------------- the grammar

  /** A descriptor starts with its own length. */
  predicate Sized(b: seq<byte>) {
    |b| >= 2 && |b| == b[0]
  }

  /** The descriptor types are those of table 9-5. */
  predicate IsInterface(b: seq<byte>) {
    Sized(b) && b[1] == 4
  }

  predicate IsEndpoint(b: seq<byte>) {
    Sized(b) && b[1] == 5
  }

  predicate AllSized(bs: seq<seq<byte>>) {
    forall k :: 0 <= k < |bs| ==> Sized(bs[k])
  }

  function Flatten(bs: seq<seq<byte>>): seq<byte> {
    if bs == [] then [] else bs[0] + Flatten(bs[1..])
  }

  /** The number of settings of interface m among the descriptors. */
  function Settings(bs: seq<seq<byte>>, m: int): nat {
    if bs == [] then 0
    else Settings(bs[..|bs| - 1], m) + if IsSettingOf(bs[|bs| - 1], m) then 1 else 0
  }

  predicate IsSettingOf(b: seq<byte>, m: int) {
    IsInterface(b) && |b| == 9 && b[2] == m
  }

  ghost predicate HasSetting(bs: seq<seq<byte>>, m: int) {
    exists k :: 0 <= k < |bs| && IsSettingOf(bs[k], m)
  }

  /** The endpoint descriptors up to the next interface descriptor. */
  function EndpointRun(bs: seq<seq<byte>>): seq<seq<byte>> {
    if bs == [] || IsInterface(bs[0]) then []
    else (if IsEndpoint(bs[0]) then [bs[0]] else []) + EndpointRun(bs[1..])
  }

  /**
   The descriptors so far are complete: the settings of each interface are numbered from zero in order
   of appearance, each is followed by as many endpoints as it announces, and no endpoint comes before
   the first setting. Descriptors of other types may stand anywhere.
   */
  ghost predicate Complete(n: nat, bs: seq<seq<byte>>) {
    && AllSized(bs)
    && (forall k :: 0 <= k < |bs| && IsInterface(bs[k]) ==>
          && |bs[k]| == 9
          && bs[k][2] < n
          && bs[k][3] == Settings(bs[..k], bs[k][2])
          && |EndpointRun(bs[k + 1..])| == bs[k][4])
    && (forall k :: 0 <= k < |bs| && IsEndpoint(bs[k]) ==>
          |bs[k]| == 7 && exists i :: 0 <= i < k && IsInterface(bs[i]))
  }

  /** A complete list in which every one of the n interfaces has a setting. */
  ghost predicate Grammar(n: nat, bs: seq<seq<byte>>) {
    Complete(n, bs) && forall m :: 0 <= m < n ==> HasSetting(bs, m)
  }

  /** The settings of interface m, in the order of the input, each with its endpoints in that order. */
  function SettingsOf(bs: seq<seq<byte>>, m: int): seq<AltSetting> {
    if bs == [] then []
    else
      (if IsSettingOf(bs[0], m) then [AltSetting(bs[0], EndpointRun(bs[1..]))] else [])
      + SettingsOf(bs[1..], m)
  }

  /** The byte string is a configuration descriptor followed by the descriptors. */
  ghost predicate Describes(s: seq<byte>, bs: seq<seq<byte>>) {
    && |s| >= 9 && s[0] == 9 && s[1] == 2
    && s[9..] == Flatten(bs)
    && Grammar(s[4], bs)
  }
}
