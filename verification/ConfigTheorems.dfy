/**
 The configuration parser accepts exactly the byte strings of the grammar and returns the tree that
 the grammar describes; printing a tree and parsing the result gives the tree back.
 */
module ConfigTheorems {
  import opened Options
  import opened ConfigGrammar

  /** The parser's loop on descriptors that are already separated. */
  function ScanList(sc: Scan, n: nat, bs: seq<seq<byte>>): (r: ScanResult)
    requires ScanOk(sc, n) && AllSized(bs)
    ensures r.Going? ==> ScanOk(r.scan, n)
    decreases |bs|
  {
    if bs == [] then Going(sc)
    else
      var r := StepBlock(sc, n, bs[0]);
      if r.Going? then ScanList(r.scan, n, bs[1..]) else r
  }

  lemma ScanListCons(sc: Scan, n: nat, b: seq<byte>, bs: seq<seq<byte>>)
    requires ScanOk(sc, n) && Sized(b) && AllSized(bs) && StepBlock(sc, n, b).Going?
    ensures AllSized([b] + bs) && ScanList(sc, n, [b] + bs) == ScanList(StepBlock(sc, n, b).scan, n, bs)
  {
    assert ([b] + bs)[1..] == bs;
  }

  lemma {:induction false} ScanFlattened(sc: Scan, n: nat, bs: seq<seq<byte>>)
    requires ScanOk(sc, n) && AllSized(bs)
    ensures ScanBytes(sc, n, Flatten(bs)) == ScanList(sc, n, bs)
    decreases |bs|
  {
    if bs != [] {
      var s, b := Flatten(bs), bs[0];
      assert s[..b[0]] == b && s[b[0]..] == Flatten(bs[1..]);
      var r := StepBlock(sc, n, b);
      if r.Going? {
        ScanFlattened(r.scan, n, bs[1..]);
      }
    }
  }

  lemma FlattenCons(b: seq<byte>, bs: seq<seq<byte>>)
    ensures ([b] + bs)[1..] == bs && Flatten([b] + bs) == b + Flatten(bs)
  {
    assert ([b] + bs)[1..] == bs;
  }

  /** What the loop gets through to its end can be separated into descriptors. */
  lemma {:induction false} Separate(sc: Scan, n: nat, s: seq<byte>) returns (bs: seq<seq<byte>>)
    requires ScanOk(sc, n) && ScanBytes(sc, n, s).Going?
    ensures AllSized(bs) && Flatten(bs) == s
    decreases |s|
  {
    if s == [] {
      bs := [];
    } else {
      var b := s[..s[0]];
      var rest := Separate(StepBlock(sc, n, b).scan, n, s[s[0]..]);
      bs := [b] + rest;
      assert bs[1..] == rest;
    }
  }

  // ---------------------------------------------------------------- one descriptor at a time

  /** The grammar for what may follow when `sc` has been read. */
  ghost predicate Continues(sc: Scan, n: nat, bs: seq<seq<byte>>)
    requires ScanOk(sc, n)
  {
    && AllSized(bs)
    && (forall k :: 0 <= k < |bs| && IsInterface(bs[k]) ==> SettingFits(sc, n, bs, k))
    && (forall k :: 0 <= k < |bs| && IsEndpoint(bs[k]) ==> |bs[k]| == 7 && (sc.open.Some? || InterfaceBefore(bs, k)))
    && (sc.open.Some? ==> |EndpointRun(bs)| == Missing(sc))
  }

  ghost predicate InterfaceBefore(bs: seq<seq<byte>>, k: nat) {
    exists i :: 0 <= i < k && i < |bs| && IsInterface(bs[i])
  }

  ghost predicate SettingFits(sc: Scan, n: nat, bs: seq<seq<byte>>, k: nat)
    requires |sc.interfaces| == n && k < |bs| && IsInterface(bs[k])
  {
    && |bs[k]| == 9
    && bs[k][2] < n
    && bs[k][3] == |sc.interfaces[bs[k][2]]| + Settings(bs[..k], bs[k][2])
    && |EndpointRun(bs[k + 1..])| == bs[k][4]
  }

  lemma CompleteIsContinues(n: nat, bs: seq<seq<byte>>)
    ensures Complete(n, bs) <==> Continues(Scan(Empty(n), None), n, bs)
  {
    forall k | 0 <= k < |bs|
      ensures InterfaceBefore(bs, k) <==> exists i :: 0 <= i < k && IsInterface(bs[i])
    {
    }
  }

  lemma {:induction false} SettingsCons(b: seq<byte>, bs: seq<seq<byte>>, m: int)
    ensures Settings([b] + bs, m) == (if IsSettingOf(b, m) then 1 else 0) + Settings(bs, m)
  {
    var l := [b] + bs;
    if bs == [] {
      assert l == [b];
      assert l[..0] == [];
    } else {
      assert l[..|l| - 1] == [b] + bs[..|bs| - 1];
      SettingsCons(b, bs[..|bs| - 1], m);
    }
  }

  lemma StepContinues(sc: Scan, n: nat, b: seq<byte>, bs: seq<seq<byte>>)
    requires ScanOk(sc, n) && Sized(b)
    ensures Continues(sc, n, [b] + bs) <==>
            StepBlock(sc, n, b).Going? && Continues(StepBlock(sc, n, b).scan, n, bs)
  {
    if Continues(sc, n, [b] + bs) {
      StepForward(sc, n, b, bs);
    }
    if StepBlock(sc, n, b).Going? && Continues(StepBlock(sc, n, b).scan, n, bs) {
      StepBackward(sc, n, b, bs);
    }
  }

  /** How many settings an interface has counts the same before and after a step. */
  lemma StepSettings(sc: Scan, n: nat, b: seq<byte>, bs: seq<seq<byte>>, k: nat)
    requires ScanOk(sc, n) && Sized(b) && StepBlock(sc, n, b).Going? && k < |bs| && IsInterface(bs[k])
    ensures SettingFits(sc, n, [b] + bs, k + 1) <==> SettingFits(StepBlock(sc, n, b).scan, n, bs, k)
  {
    var l := [b] + bs;
    assert l[..k + 1] == [b] + bs[..k] && l[k + 2..] == bs[k + 1..];
    if |bs[k]| == 9 && bs[k][2] < n {
      SettingsCons(b, bs[..k], bs[k][2]);
    }
  }

  lemma StepForward(sc: Scan, n: nat, b: seq<byte>, bs: seq<seq<byte>>)
    requires ScanOk(sc, n) && Sized(b) && Continues(sc, n, [b] + bs)
    ensures StepBlock(sc, n, b).Going? && Continues(StepBlock(sc, n, b).scan, n, bs)
  {
    var l := [b] + bs;
    assert l[0] == b && l[1..] == bs && l[..0] == [];
    if IsEndpoint(b) {
      assert !InterfaceBefore(l, 0);
    }
    var sc' := StepBlock(sc, n, b).scan;
    forall k | 0 <= k < |bs|
      ensures Sized(bs[k])
      ensures IsInterface(bs[k]) ==> SettingFits(sc', n, bs, k)
      ensures IsEndpoint(bs[k]) ==> |bs[k]| == 7 && (sc'.open.Some? || InterfaceBefore(bs, k))
    {
      assert l[k + 1] == bs[k];
      if IsInterface(bs[k]) {
        StepSettings(sc, n, b, bs, k);
      }
      if IsEndpoint(bs[k]) && InterfaceBefore(l, k + 1) && !InterfaceBefore(bs, k) {
        var i :| 0 <= i < k + 1 && IsInterface(l[i]);
        assert i > 0 ==> IsInterface(bs[i - 1]);
      }
    }
  }

  lemma StepBackward(sc: Scan, n: nat, b: seq<byte>, bs: seq<seq<byte>>)
    requires ScanOk(sc, n) && Sized(b)
    requires StepBlock(sc, n, b).Going? && Continues(StepBlock(sc, n, b).scan, n, bs)
    ensures Continues(sc, n, [b] + bs)
  {
    var l, sc' := [b] + bs, StepBlock(sc, n, b).scan;
    assert l[1..] == bs && l[..0] == [];
    forall k | 0 <= k < |l|
      ensures Sized(l[k])
      ensures IsInterface(l[k]) ==> SettingFits(sc, n, l, k)
      ensures IsEndpoint(l[k]) ==> |l[k]| == 7 && (sc.open.Some? || InterfaceBefore(l, k))
    {
      if k > 0 {
        assert l[k] == bs[k - 1];
        if IsInterface(l[k]) {
          StepSettings(sc, n, b, bs, k - 1);
        }
        if IsEndpoint(l[k]) && sc.open.None? {
          if InterfaceBefore(bs, k - 1) {
            var i :| 0 <= i < k - 1 && i < |bs| && IsInterface(bs[i]);
            assert IsInterface(l[i + 1]);
          } else {
            assert IsInterface(l[0]);
          }
        }
      }
    }
  }

  /** The loop ends with every announced endpoint read. */
  predicate Ends(r: ScanResult, n: nat)
    requires r.Going? ==> ScanOk(r.scan, n)
  {
    r.Going? && Missing(r.scan) == 0
  }

  lemma {:induction false} ScanEnds(sc: Scan, n: nat, bs: seq<seq<byte>>)
    requires ScanOk(sc, n) && AllSized(bs)
    ensures Ends(ScanList(sc, n, bs), n) <==> Continues(sc, n, bs)
    decreases |bs|
  {
    if bs != [] {
      assert bs == [bs[0]] + bs[1..];
      StepContinues(sc, n, bs[0], bs[1..]);
      var r := StepBlock(sc, n, bs[0]);
      if r.Going? {
        ScanEnds(r.scan, n, bs[1..]);
      }
    }
  }

  // ---------------------------------------------------------------- the tree

  /** The settings of interface m, with more endpoints for the one that is being read. */
  function Extended(sc: Scan, m: nat, more: seq<seq<byte>>): seq<AltSetting>
    requires m < |sc.interfaces|
    requires sc.open.Some? ==> sc.open.value < |sc.interfaces| && sc.interfaces[sc.open.value] != []
  {
    if sc.open != Some(m) then sc.interfaces[m]
    else
      var alts := sc.interfaces[m];
      alts[..|alts| - 1] + [Current(sc).(endpoints := Current(sc).endpoints + more)]
  }

  /** One descriptor of the tree: it starts a setting, adds an endpoint, or is passed over. */
  lemma StepTree(sc: Scan, n: nat, b: seq<byte>, run: seq<seq<byte>>, m: nat)
    requires ScanOk(sc, n) && Sized(b) && m < n && StepBlock(sc, n, b).Going?
    ensures var more := if IsInterface(b) then [] else (if IsEndpoint(b) then [b] else []) + run;
            var started := if IsSettingOf(b, m) then [AltSetting(b, run)] else [];
            Extended(StepBlock(sc, n, b).scan, m, run) == Extended(sc, m, more) + started
  {
    var sc' := StepBlock(sc, n, b).scan;
    if IsInterface(b) {
      ExtendedByNone(sc, m);
      if b[2] == m {
        assert sc'.interfaces[m][..|sc'.interfaces[m]| - 1] == sc.interfaces[m];
        assert [] + run == run;
      }
    } else if IsEndpoint(b) {
      if sc.open == Some(m) {
        assert Current(sc').endpoints + run == Current(sc).endpoints + ([b] + run);
        assert Extended(sc', m, run) == Extended(sc, m, [b] + run);
      }
    } else {
      assert [] + run == run;
    }
  }

  /** The loop appends the settings of each interface in input order, with their endpoints in input order. */
  lemma {:induction false} ScanTree(sc: Scan, n: nat, bs: seq<seq<byte>>, m: nat)
    requires ScanOk(sc, n) && AllSized(bs) && m < n
    requires ScanList(sc, n, bs).Going?
    ensures ScanList(sc, n, bs).scan.interfaces[m] == Extended(sc, m, EndpointRun(bs)) + SettingsOf(bs, m)
    decreases |bs|
  {
    if bs == [] {
      ExtendedByNone(sc, m);
    } else {
      hide Extended, StepBlock, ScanOk;
      ScanTree(StepBlock(sc, n, bs[0]).scan, n, bs[1..], m);
      StepTree(sc, n, bs[0], EndpointRun(bs[1..]), m);
    }
  }

  lemma ExtendedByNone(sc: Scan, m: nat)
    requires m < |sc.interfaces|
    requires sc.open.Some? ==> sc.open.value < |sc.interfaces| && sc.interfaces[sc.open.value] != []
    ensures Extended(sc, m, []) == sc.interfaces[m]
  {
    if sc.open == Some(m) {
      assert Current(sc).endpoints + [] == Current(sc).endpoints;
    }
  }

  /** The tree the grammar gives to the descriptors: a stable partition by interface number. */
  function TreeOf(n: nat, bs: seq<seq<byte>>): (r: seq<seq<AltSetting>>)
    ensures |r| == n && forall m :: 0 <= m < n ==> r[m] == SettingsOf(bs, m)
  {
    seq(n, m => SettingsOf(bs, m))
  }

  lemma {:induction false} SettingsOfNonEmpty(bs: seq<seq<byte>>, m: int)
    ensures SettingsOf(bs, m) != [] <==> HasSetting(bs, m)
  {
    if bs != [] {
      SettingsOfNonEmpty(bs[1..], m);
      if HasSetting(bs, m) && !IsSettingOf(bs[0], m) {
        var k :| 0 <= k < |bs| && IsSettingOf(bs[k], m);
        assert IsSettingOf(bs[1..][k - 1], m);
      }
      if HasSetting(bs[1..], m) {
        var k :| 0 <= k < |bs[1..]| && IsSettingOf(bs[1..][k], m);
        assert IsSettingOf(bs[k + 1], m);
      }
    }
  }

  /** What the parser makes of a byte string that can be separated into descriptors. */
  lemma ParseSeparated(s: seq<byte>, bs: seq<seq<byte>>)
    requires |s| >= 9 && s[0] == 9 && s[1] == 2 && s[9..] == Flatten(bs) && AllSized(bs)
    ensures Grammar(s[4], bs) ==> ParseConfig(s) == Parsed(Config(s[..9], TreeOf(s[4], bs)))
    ensures !Grammar(s[4], bs) ==> !ParseConfig(s).Parsed?
  {
    var n: nat := s[4];
    var sc := Scan(Empty(n), None);
    ScanFlattened(sc, n, bs);
    CompleteIsContinues(n, bs);
    ScanEnds(sc, n, bs);
    var r := ScanList(sc, n, bs);
    if Ends(r, n) {
      forall m | 0 <= m < n
        ensures r.scan.interfaces[m] == SettingsOf(bs, m)
        ensures r.scan.interfaces[m] != [] <==> HasSetting(bs, m)
      {
        ScanTree(sc, n, bs, m);
        SettingsOfNonEmpty(bs, m);
      }
      assert r.scan.interfaces == TreeOf(n, bs);
    }
  }

  /** Soundness and completeness: the parser succeeds exactly on the byte strings of the grammar. */
  lemma ParserAcceptsGrammar(s: seq<byte>)
    ensures ParseConfig(s).Parsed? <==> exists bs :: Describes(s, bs)
  {
    if exists bs :: Describes(s, bs) {
      var bs :| Describes(s, bs);
      ParseSeparated(s, bs);
    }
    if ParseConfig(s).Parsed? {
      var bs := Separate(Scan(Empty(s[4]), None), s[4], s[9..]);
      ParseSeparated(s, bs);
      assert Describes(s, bs);
    }
  }

  /** What the parser returns is the tree of the descriptors. */
  lemma ParserBuildsTree(s: seq<byte>, bs: seq<seq<byte>>)
    requires Describes(s, bs)
    ensures ParseConfig(s) == Parsed(Config(s[..9], TreeOf(s[4], bs)))
  {
    ParseSeparated(s, bs);
  }

  // ---------------------------------------------------------------- endpoints without a place

  /** Where the loop stops because an endpoint has no place. */
  lemma {:induction false} FindOverrun(sc: Scan, n: nat, s: seq<byte>)
    returns (bs: seq<seq<byte>>, b: seq<byte>, rest: seq<byte>)
    requires ScanOk(sc, n) && ScanBytes(sc, n, s).Outside?
    ensures AllSized(bs) && s == Flatten(bs) + b + rest
    ensures Ends(ScanList(sc, n, bs), n) && IsEndpoint(b) && |b| == 7
    decreases |s|
  {
    FirstBlock(sc, n, s);
    hide StepBlock, ScanOk, ScanList, ScanBytes, Flatten, Ends;
    b, rest := s[..s[0]], s[s[0]..];
    if StepBlock(sc, n, b).Outside? {
      bs := [];
      NoPlace(sc, n, b);
      assert [] + b == b;
    } else {
      var b', bs';
      bs', b', rest := FindOverrun(StepBlock(sc, n, b).scan, n, rest);
      FlattenCons(b, bs');
      ScanListCons(sc, n, b, bs');
      Associate(b, Flatten(bs'), b', rest);
      bs, b := [b] + bs', b';
    }
  }

  lemma Associate(a: seq<byte>, b: seq<byte>, c: seq<byte>, d: seq<byte>)
    ensures a + (b + c + d) == a + b + c + d
  {
  }

  /** The loop leaves the array with the first descriptor or goes on to do so later. */
  lemma FirstBlock(sc: Scan, n: nat, s: seq<byte>)
    requires ScanOk(sc, n) && ScanBytes(sc, n, s).Outside?
    ensures |s| >= 2 && 2 <= s[0] <= |s| && Sized(s[..s[0]]) && s == s[..s[0]] + s[s[0]..]
    ensures var r := StepBlock(sc, n, s[..s[0]]);
            r.Outside? || (r.Going? && ScanBytes(r.scan, n, s[s[0]..]).Outside?)
  {
    hide StepBlock;
  }

  lemma NoPlace(sc: Scan, n: nat, b: seq<byte>)
    requires ScanOk(sc, n) && Sized(b) && StepBlock(sc, n, b).Outside?
    ensures IsEndpoint(b) && |b| == 7 && Ends(ScanList(sc, n, []), n) && Flatten([]) == []
  {
  }

  lemma {:induction false} ScanBytesAfter(sc: Scan, n: nat, bs: seq<seq<byte>>, rest: seq<byte>)
    requires ScanOk(sc, n) && AllSized(bs) && ScanList(sc, n, bs).Going?
    ensures ScanBytes(sc, n, Flatten(bs) + rest) == ScanBytes(ScanList(sc, n, bs).scan, n, rest)
    decreases |bs|
  {
    if bs == [] {
      assert Flatten(bs) + rest == rest;
    } else {
      var s, b := Flatten(bs) + rest, bs[0];
      assert s == b + (Flatten(bs[1..]) + rest);
      assert s[..b[0]] == b && s[b[0]..] == Flatten(bs[1..]) + rest;
      ScanBytesAfter(StepBlock(sc, n, b).scan, n, bs[1..], rest);
    }
  }

  /** The input has an endpoint descriptor where everything announced so far is already complete. */
  ghost predicate EndpointWithoutPlace(s: seq<byte>, bs: seq<seq<byte>>, b: seq<byte>, rest: seq<byte>) {
    && |s| >= 9 && s[0] == 9 && s[1] == 2
    && s[9..] == Flatten(bs) + b + rest
    && Complete(s[4], bs) && IsEndpoint(b) && |b| == 7
  }

  /** The code stores an endpoint outside its array exactly on the inputs that have such an endpoint. */
  lemma OverrunExactly(s: seq<byte>)
    ensures ParseConfig(s) == Overrun <==> exists bs, b, rest :: EndpointWithoutPlace(s, bs, b, rest)
  {
    if ParseConfig(s) == Overrun {
      var n: nat := s[4];
      var sc := Scan(Empty(n), None);
      var bs, b, rest := FindOverrun(sc, n, s[9..]);
      ScanEnds(sc, n, bs);
      CompleteIsContinues(n, bs);
      assert EndpointWithoutPlace(s, bs, b, rest);
    }
    if exists bs, b, rest :: EndpointWithoutPlace(s, bs, b, rest) {
      var bs, b, rest :| EndpointWithoutPlace(s, bs, b, rest);
      var n: nat := s[4];
      var sc := Scan(Empty(n), None);
      CompleteIsContinues(n, bs);
      ScanEnds(sc, n, bs);
      assert Flatten(bs) + b + rest == Flatten(bs) + (b + rest);
      ScanBytesAfter(sc, n, bs, b + rest);
      assert (b + rest)[..b[0]] == b;
    }
  }

  /** A configuration descriptor that announces one interface. */
  const HEADER: seq<byte> := [9, 2, 0, 0, 1, 1, 0, 0, 0]

  const BULK_IN: seq<byte> := [7, 5, 0x81, 2, 64, 0, 0]

  /** An endpoint before any interface. */
  lemma EndpointBeforeInterface()
    ensures ParseConfig(HEADER + BULK_IN) == Overrun
  {
    var s := HEADER + BULK_IN;
    assert s[9..] == BULK_IN && BULK_IN[..7] == BULK_IN;
  }

  /** An endpoint more than the interface announces. */
  lemma EndpointBeyondAnnounced()
    ensures ParseConfig(HEADER + [9, 4, 0, 0, 0, 0, 0, 0, 0] + BULK_IN) == Overrun
  {
    var setting: seq<byte> := [9, 4, 0, 0, 0, 0, 0, 0, 0];
    assert HEADER[4] == 1;
    EndpointAfterNone(HEADER, setting, BULK_IN);
  }

  lemma EndpointAfterNone(header: seq<byte>, setting: seq<byte>, endpoint: seq<byte>)
    requires |header| == 9 && header[0] == 9 && header[1] == 2 && header[4] == 1
    requires |setting| == 9 && setting[0] == 9 && setting[1] == 4 && setting[2] == setting[3] == setting[4] == 0
    requires |endpoint| == 7 && endpoint[0] == 7 && endpoint[1] == 5
    ensures ParseConfig(header + setting + endpoint) == Overrun
  {
    var s, sc := header + setting + endpoint, Scan(Empty(1), None);
    var sc' := AddSetting(sc, 0, setting);
    assert s[9..] == setting + endpoint;
    assert (setting + endpoint)[..9] == setting && (setting + endpoint)[9..] == endpoint && endpoint[..7] == endpoint;
    assert StepBlock(sc, 1, setting) == Going(sc');
    assert Current(sc') == AltSetting(setting, []) && Missing(sc') == 0;
    assert StepBlock(sc', 1, endpoint) == Outside;
    assert ScanBytes(sc', 1, endpoint) == Outside;
    assert ScanBytes(sc, 1, s[9..]) == Outside;
  }

  // ---------------------------------------------------------------- what success means for the tree

  /** Setting k of interface m carries the numbers k and m, and has as many endpoints as it announces. */
  ghost predicate WellFormed(c: Config) {
    && |c.header| == 9 && c.header[0] == 9 && c.header[1] == 2 && c.header[4] == |c.interfaces|
    && (forall m :: 0 <= m < |c.interfaces| ==> c.interfaces[m] != [])
    && (forall m, k :: 0 <= m < |c.interfaces| && 0 <= k < |c.interfaces[m]| ==>
          WellFormedSetting(c.interfaces[m][k], m, k))
  }

  ghost predicate WellFormedSetting(a: AltSetting, m: nat, k: nat) {
    && |a.header| == 9 && a.header[0] == 9 && a.header[1] == 4
    && a.header[2] == m && a.header[3] == k && a.header[4] == |a.endpoints|
    && forall e :: 0 <= e < |a.endpoints| ==> WellFormedEndpoint(a.endpoints[e])
  }

  predicate WellFormedEndpoint(e: seq<byte>) {
    |e| == 7 && e[0] == 7 && e[1] == 5
  }

  lemma {:induction false} SettingsOfLength(bs: seq<seq<byte>>, m: int)
    ensures |SettingsOf(bs, m)| == Settings(bs, m)
  {
    if bs != [] {
      assert bs == [bs[0]] + bs[1..];
      SettingsCons(bs[0], bs[1..], m);
      SettingsOfLength(bs[1..], m);
    }
  }

  /** Descriptor k is setting i of interface m, with the endpoints after it. */
  predicate ListedAt(bs: seq<seq<byte>>, m: nat, i: nat, k: nat) {
    && k < |bs| && IsSettingOf(bs[k], m) && Settings(bs[..k], m) == i
    && i < |SettingsOf(bs, m)| && SettingsOf(bs, m)[i] == AltSetting(bs[k], EndpointRun(bs[k + 1..]))
  }

  lemma ListedLater(b: seq<byte>, rest: seq<seq<byte>>, m: nat, i: nat, k: nat)
    requires ListedAt(rest, m, i, k)
    ensures ListedAt([b] + rest, m, if IsSettingOf(b, m) then i + 1 else i, k + 1)
  {
    var bs := [b] + rest;
    assert bs[1..] == rest && bs[..k + 1] == [b] + rest[..k] && bs[k + 2..] == rest[k + 1..];
    SettingsCons(b, rest[..k], m);
    hide IsSettingOf, EndpointRun, Settings;
    assert bs[k + 1] == rest[k];
  }

  lemma {:induction false} SettingsOfSuffix(bs: seq<seq<byte>>, m: nat, i: nat)
    requires i < |SettingsOf(bs, m)|
    ensures exists k: nat :: ListedAt(bs, m, i, k)
    decreases |bs|
  {
    var b, rest := bs[0], bs[1..];
    assert bs == [b] + rest;
    if IsSettingOf(b, m) && i == 0 {
      assert bs[..0] == [];
      assert ListedAt(bs, m, 0, 0);
    } else {
      var i' := if IsSettingOf(b, m) then i - 1 else i;
      SettingsOfSuffix(rest, m, i');
      var k: nat :| ListedAt(rest, m, i', k);
      ListedLater(b, rest, m, i', k);
    }
  }

  lemma {:induction false} EndpointRunWellFormed(bs: seq<seq<byte>>)
    requires forall k :: 0 <= k < |bs| && IsEndpoint(bs[k]) ==> |bs[k]| == 7
    ensures forall e :: 0 <= e < |EndpointRun(bs)| ==> WellFormedEndpoint(EndpointRun(bs)[e])
  {
    if bs != [] && !IsInterface(bs[0]) {
      EndpointRunWellFormed(bs[1..]);
    }
  }

  /** On success the tree is well formed. */
  lemma ParsedIsWellFormed(s: seq<byte>)
    requires ParseConfig(s).Parsed?
    ensures WellFormed(ParseConfig(s).config)
  {
    ParserAcceptsGrammar(s);
    var bs :| Describes(s, bs);
    ParserBuildsTree(s, bs);
    var n, tree := s[4], TreeOf(s[4], bs);
    forall m | 0 <= m < n
      ensures tree[m] != []
      ensures forall i :: 0 <= i < |tree[m]| ==> WellFormedSetting(tree[m][i], m, i)
    {
      assert HasSetting(bs, m);
      var k :| 0 <= k < |bs| && IsSettingOf(bs[k], m);
      SettingListed(bs, m, k);
      forall i | 0 <= i < |tree[m]|
        ensures WellFormedSetting(tree[m][i], m, i)
      {
        SettingsOfSuffix(bs, m, i);
        var j: nat :| ListedAt(bs, m, i, j);
        EndpointRunWellFormed(bs[j + 1..]);
      }
    }
  }

  lemma {:induction false} SettingListed(bs: seq<seq<byte>>, m: nat, k: nat)
    requires k < |bs| && IsSettingOf(bs[k], m)
    ensures SettingsOf(bs, m) != []
  {
    if k > 0 {
      SettingListed(bs[1..], m, k - 1);
    }
  }

  // ---------------------------------------------------------------- round trip

  function PrintSettings(alts: seq<AltSetting>): seq<seq<byte>> {
    if alts == [] then [] else [alts[0].header] + alts[0].endpoints + PrintSettings(alts[1..])
  }

  /** The descriptors of a tree, interface by interface. */
  function PrintInterfaces(interfaces: seq<seq<AltSetting>>): seq<seq<byte>> {
    if interfaces == [] then [] else PrintSettings(interfaces[0]) + PrintInterfaces(interfaces[1..])
  }

  /** The interface and endpoint descriptors among others. */
  function Known(bs: seq<seq<byte>>): seq<seq<byte>> {
    if bs == [] then []
    else (if IsInterface(bs[0]) || IsEndpoint(bs[0]) then [bs[0]] else []) + Known(bs[1..])
  }

  lemma {:induction false} KnownSized(bs: seq<seq<byte>>)
    requires AllSized(bs)
    ensures AllSized(Known(bs))
  {
    if bs != [] {
      KnownSized(bs[1..]);
    }
  }

  lemma {:induction false} ScanIgnoresOthers(sc: Scan, n: nat, bs: seq<seq<byte>>)
    requires ScanOk(sc, n) && AllSized(bs) && AllSized(Known(bs))
    ensures ScanList(sc, n, bs) == ScanList(sc, n, Known(bs))
    decreases |bs|
  {
    if bs != [] {
      KnownSized(bs[1..]);
      var r := StepBlock(sc, n, bs[0]);
      if IsInterface(bs[0]) || IsEndpoint(bs[0]) {
        assert Known(bs)[1..] == Known(bs[1..]);
      } else {
        assert Known(bs) == Known(bs[1..]);
      }
      if r.Going? {
        ScanIgnoresOthers(r.scan, n, bs[1..]);
      }
    }
  }

  lemma {:induction false} ScanAppend(sc: Scan, n: nat, a: seq<seq<byte>>, b: seq<seq<byte>>)
    requires ScanOk(sc, n) && AllSized(a) && AllSized(b) && ScanList(sc, n, a).Going?
    ensures AllSized(a + b) && ScanList(sc, n, a + b) == ScanList(ScanList(sc, n, a).scan, n, b)
    decreases |a|
  {
    if a == [] {
      assert a + b == b;
    } else {
      assert (a + b)[1..] == a[1..] + b;
      ScanAppend(StepBlock(sc, n, a[0]).scan, n, a[1..], b);
    }
  }

  /** Endpoints fill the setting being read. */
  lemma {:induction false} ScanEndpoints(sc: Scan, n: nat, eps: seq<seq<byte>>)
    requires ScanOk(sc, n) && sc.open.Some? && |eps| <= Missing(sc)
    requires forall e :: 0 <= e < |eps| ==> WellFormedEndpoint(eps[e])
    ensures AllSized(eps) && ScanList(sc, n, eps) ==
                             Going(Scan(sc.interfaces[sc.open.value := Extended(sc, sc.open.value, eps)], sc.open))
    decreases |eps|
  {
    var m := sc.open.value;
    if eps == [] {
      ExtendedByNone(sc, m);
      assert sc.interfaces[m := sc.interfaces[m]] == sc.interfaces;
    } else {
      var sc' := AddEndpoint(sc, eps[0]);
      assert StepBlock(sc, n, eps[0]) == Going(sc');
      ScanEndpoints(sc', n, eps[1..]);
      StepTree(sc, n, eps[0], eps[1..], m);
      assert [eps[0]] + eps[1..] == eps;
      assert Extended(sc', m, eps[1..]) == Extended(sc, m, eps);
    }
  }

  /** A setting fits after a complete list. */
  lemma ScanSetting(sc: Scan, n: nat, a: AltSetting, m: nat)
    requires ScanOk(sc, n) && Missing(sc) == 0 && m < n && WellFormedSetting(a, m, |sc.interfaces[m]|)
    ensures AllSized([a.header] + a.endpoints)
    ensures ScanList(sc, n, [a.header] + a.endpoints) ==
            Going(Scan(sc.interfaces[m := sc.interfaces[m] + [a]], Some(m)))
  {
    var sc' := AddSetting(sc, m, a.header);
    assert StepBlock(sc, n, a.header) == Going(sc');
    ScanEndpoints(sc', n, a.endpoints);
    ScanListCons(sc, n, a.header, a.endpoints);
    hide ScanList, StepBlock;
    assert [] + a.endpoints == a.endpoints;
    assert sc'.interfaces[m][..|sc'.interfaces[m]| - 1] == sc.interfaces[m];
    assert Extended(sc', m, a.endpoints) == sc.interfaces[m] + [a];
  }

  lemma {:induction false} ScanSettings(sc: Scan, n: nat, alts: seq<AltSetting>, m: nat)
    requires ScanOk(sc, n) && Missing(sc) == 0 && m < n
    requires forall k :: 0 <= k < |alts| ==> WellFormedSetting(alts[k], m, |sc.interfaces[m]| + k)
    ensures AllSized(PrintSettings(alts))
    ensures var r := ScanList(sc, n, PrintSettings(alts));
            r.Going? && Missing(r.scan) == 0 && r.scan.interfaces == sc.interfaces[m := sc.interfaces[m] + alts]
    decreases |alts|
  {
    if alts == [] {
      assert sc.interfaces[m] + [] == sc.interfaces[m];
      assert sc.interfaces[m := sc.interfaces[m]] == sc.interfaces;
    } else {
      var a := [alts[0].header] + alts[0].endpoints;
      ScanSetting(sc, n, alts[0], m);
      var sc' := ScanList(sc, n, a).scan;
      ScanSettings(sc', n, alts[1..], m);
      ScanAppend(sc, n, a, PrintSettings(alts[1..]));
      assert PrintSettings(alts) == a + PrintSettings(alts[1..]);
      assert sc.interfaces[m] + [alts[0]] + alts[1..] == sc.interfaces[m] + alts;
    }
  }

  lemma FirstInterface(sc: Scan, n: nat, alts: seq<AltSetting>, m: nat)
    requires ScanOk(sc, n) && Missing(sc) == 0 && m < n && sc.interfaces[m] == []
    requires forall k :: 0 <= k < |alts| ==> WellFormedSetting(alts[k], m, k)
    ensures AllSized(PrintSettings(alts))
    ensures var r := ScanList(sc, n, PrintSettings(alts));
            && r.Going? && Missing(r.scan) == 0 && r.scan.interfaces[..m + 1] == sc.interfaces[..m] + [alts]
            && forall i :: m < i < n ==> r.scan.interfaces[i] == sc.interfaces[i]
  {
    hide StepBlock, WellFormedSetting, ScanList, PrintSettings;
    ScanSettings(sc, n, alts, m);
    assert [] + alts == alts;
  }

  lemma {:induction false} ScanInterfaces(sc: Scan, n: nat, interfaces: seq<seq<AltSetting>>, m: nat)
    requires ScanOk(sc, n) && Missing(sc) == 0 && m + |interfaces| == n
    requires forall i :: m <= i < n ==> sc.interfaces[i] == []
    requires forall i, k :: 0 <= i < |interfaces| && 0 <= k < |interfaces[i]| ==>
               WellFormedSetting(interfaces[i][k], m + i, k)
    ensures AllSized(PrintInterfaces(interfaces))
    ensures var r := ScanList(sc, n, PrintInterfaces(interfaces));
            r.Going? && Missing(r.scan) == 0 && r.scan.interfaces == sc.interfaces[..m] + interfaces
    decreases |interfaces|
  {
    hide StepBlock, WellFormedSetting;
    if interfaces == [] {
    } else {
      var first, others := interfaces[0], interfaces[1..];
      FirstInterface(sc, n, first, m);
      var sc' := ScanList(sc, n, PrintSettings(first)).scan;
      ScanInterfaces(sc', n, others, m + 1);
      ScanAppend(sc, n, PrintSettings(first), PrintInterfaces(others));
      assert sc.interfaces[..m] + [first] + others == sc.interfaces[..m] + interfaces;
    }
  }

  /**
   Printing any well-formed tree, with any well-sized descriptors of other types in between, and
   parsing the bytes returns exactly that tree.
   */
  lemma PrintParse(c: Config, bs: seq<seq<byte>>)
    requires WellFormed(c) && AllSized(bs) && Known(bs) == PrintInterfaces(c.interfaces)
    ensures ParseConfig(c.header + Flatten(bs)) == Parsed(c)
  {
    var s, n := c.header + Flatten(bs), |c.interfaces|;
    var sc := Scan(Empty(n), None);
    assert s[9..] == Flatten(bs) && s[..9] == c.header;
    KnownSized(bs);
    ScanFlattened(sc, n, bs);
    ScanIgnoresOthers(sc, n, bs);
    ScanInterfaces(sc, n, c.interfaces, 0);
    assert sc.interfaces[..0] + c.interfaces == c.interfaces;
  }

  /** One interface with one setting with one endpoint. */
  lemma OneOfEach(header: seq<byte>, setting: seq<byte>, endpoint: seq<byte>)
    requires |header| == 9 && header[0] == 9 && header[1] == 2 && header[4] == 1
    requires |setting| == 9 && setting[0] == 9 && setting[1] == 4 && setting[2] == setting[3] == 0 && setting[4] == 1
    requires |endpoint| == 7 && endpoint[0] == 7 && endpoint[1] == 5
    ensures ParseConfig(header + setting + endpoint) == Parsed(Config(header, [[AltSetting(setting, [endpoint])]]))
  {
    var a, bs := AltSetting(setting, [endpoint]), [setting, endpoint];
    var c := Config(header, [[a]]);
    assert WellFormedSetting(a, 0, 0) && WellFormed(c) && AllSized(bs);
    PrintOne(a);
    KnownPair(setting, endpoint);
    FlattenPair(setting, endpoint);
    hide WellFormed, Known, PrintInterfaces, Flatten, ParseConfig, AllSized;
    PrintParse(c, bs);
    Associate(header, setting, endpoint, []);
    assert setting + endpoint + [] == setting + endpoint;
    assert header + setting + endpoint + [] == header + setting + endpoint;
  }

  lemma PrintOne(a: AltSetting)
    requires |a.endpoints| == 1
    ensures PrintInterfaces([[a]]) == [a.header, a.endpoints[0]]
  {
    assert PrintSettings([a]) == [a.header] + a.endpoints + PrintSettings([]);
    assert PrintInterfaces([[a]]) == PrintSettings([a]) + PrintInterfaces([]);
  }

  lemma KnownPair(setting: seq<byte>, endpoint: seq<byte>)
    requires IsInterface(setting) && IsEndpoint(endpoint)
    ensures Known([setting, endpoint]) == [setting, endpoint]
  {
    assert [setting, endpoint][1..] == [endpoint] && [endpoint][1..] == [];
    assert Known([endpoint]) == [endpoint];
  }

  lemma FlattenPair(a: seq<byte>, b: seq<byte>)
    ensures Flatten([a, b]) == a + b
  {
    assert [a, b][1..] == [b] && [b][1..] == [];
    assert Flatten([b]) == b;
  }

  /** The same in bytes. */
  lemma OneEndpoint()
    ensures ParseConfig([9, 2, 25, 0, 1, 1, 0, 128, 50] + [9, 4, 0, 0, 1, 255, 0, 0, 0] + [7, 5, 0x81, 2, 64, 0, 0]) ==
            Parsed(Config([9, 2, 25, 0, 1, 1, 0, 128, 50],
                          [[AltSetting([9, 4, 0, 0, 1, 255, 0, 0, 0], [[7, 5, 0x81, 2, 64, 0, 0]])]]))
  {
    hide ParseConfig;
    OneOfEach([9, 2, 25, 0, 1, 1, 0, 128, 50], [9, 4, 0, 0, 1, 255, 0, 0, 0], [7, 5, 0x81, 2, 64, 0, 0]);
  }
}
