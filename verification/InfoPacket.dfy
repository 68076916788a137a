/**
 * The information packet a Windows Mobile 5 device sends on connecting, as the daemon parses it.
 * The parser moves a cursor over a buffer whose length the device chose.
 */
module InfoPacket {
  import opened Basics
  import opened Bytes
  import opened Wrappers

  datatype Info = Info(guid: seq<byte>, osMajor: u32, osMinor: u32, name: seq<u16>, version: u32, cpuType: u32,
                       partnerId: u32, id: u32, platform: seq<byte>, model: seq<byte>)

  /** The outcome: on failure the password key has been stored if the parser got that far. */
  datatype Parsed = Parsed(info: Info, pwKey: u32) | Failed(stored: Option<u32>)

  const MAX_NAME: nat := 31
  const MAX_STRING: nat := 255
  const MAX_COMPONENTS: nat := 6

  /** The code units from offset i up to a terminator, or to the end of the buffer. */
  function Units(buf: seq<byte>, i: nat): seq<u16>
    decreases |buf| - i
  {
    if i + 2 > |buf| || Le16(buf, i) == 0 then [] else [Le16(buf, i)] + Units(buf, i + 2)
  }

  /** The bytes from offset i up to a terminator, or to the end of the buffer. */
  function CString(buf: seq<byte>, i: nat): seq<byte>
    decreases |buf| - i
  {
    if i >= |buf| || buf[i] == 0 then [] else [buf[i]] + CString(buf, i + 1)
  }

  /** A counted string of code units at offset i: its text and the bytes it takes, count included. */
  function UnicodeString(buf: seq<byte>, i: nat, max: nat): (r: Option<(seq<u16>, nat)>)
    ensures r.Some? ==> i + r.value.1 <= |buf|
  {
    if i + 4 > |buf| then None
    else
      var len := Le32(buf, i);
      if i + 4 + 2 * len > |buf| || len > max then None
      else Some((if len > 0 then Units(buf, i + 4) else [], 4 + 2 * len))
  }

  function AsciiString(buf: seq<byte>, i: nat, max: nat): (r: Option<(seq<byte>, nat)>)
    ensures r.Some? ==> i + r.value.1 <= |buf|
  {
    if i + 4 > |buf| then None
    else
      var len := Le32(buf, i);
      if i + 4 + len > |buf| || len > max then None
      else Some((if len > 0 then CString(buf, i + 4) else [], 4 + len))
  }

  /** us stands at offset i, holds no zero, and ends before a zero or where the buffer has no unit more. */
  predicate IsText(buf: seq<byte>, i: nat, us: seq<u16>) {
    && i + 2 * |us| <= |buf|
    && (forall k :: 0 <= k < |us| ==> us[k] == Le16(buf, i + 2 * k) && us[k] != 0)
    && (i + 2 * |us| + 2 <= |buf| ==> Le16(buf, i + 2 * |us|) == 0)
  }

  lemma {:induction false} UnitsAreText(buf: seq<byte>, i: nat)
    requires i <= |buf|
    ensures IsText(buf, i, Units(buf, i))
    decreases |buf| - i
  {
    hide Le16;
    if i + 2 <= |buf| && Le16(buf, i) != 0 {
      UnitsAreText(buf, i + 2);
      var us, rest := Units(buf, i), Units(buf, i + 2);
      assert us == [Le16(buf, i)] + rest;
      forall k | 0 <= k < |us| ensures us[k] == Le16(buf, i + 2 * k) && us[k] != 0 {
        if k > 0 {
          assert us[k] == rest[k - 1] == Le16(buf, i + 2 + 2 * (k - 1));
        }
      }
    }
  }

  /** A name is refused exactly if its count does not fit the buffer or the limit.  Otherwise it takes what the count
      says, and its text runs to the first zero, though that be behind what the count says. */
  lemma UnicodeText(buf: seq<byte>, i: nat, max: nat)
    ensures var r := UnicodeString(buf, i, max);
            && (r.Some? <==> i + 4 <= |buf| && i + 4 + 2 * Le32(buf, i) <= |buf| && Le32(buf, i) <= max)
            && (r.Some? ==> r.value.1 == 4 + 2 * Le32(buf, i))
            && (r.Some? ==> if Le32(buf, i) == 0 then r.value.0 == [] else IsText(buf, i + 4, r.value.0))
  {
    hide Units, IsText;
    if i + 4 <= |buf| {
      UnitsAreText(buf, i + 4);
    }
  }

  predicate IsCText(buf: seq<byte>, i: nat, s: seq<byte>) {
    && i + |s| <= |buf| && buf[i..i + |s|] == s
    && (forall k :: 0 <= k < |s| ==> s[k] != 0)
    && (i + |s| < |buf| ==> buf[i + |s|] == 0)
  }

  lemma {:induction false} CStringIsText(buf: seq<byte>, i: nat)
    requires i <= |buf|
    ensures IsCText(buf, i, CString(buf, i))
    decreases |buf| - i
  {
    if i < |buf| && buf[i] != 0 {
      CStringIsText(buf, i + 1);
      var s := CString(buf, i);
      assert buf[i..i + |s|] == [buf[i]] + buf[i + 1..i + |s|];
    }
  }

  /** The same for strings of bytes. */
  lemma AsciiText(buf: seq<byte>, i: nat, max: nat)
    ensures var r := AsciiString(buf, i, max);
            && (r.Some? <==> i + 4 <= |buf| && i + 4 + Le32(buf, i) <= |buf| && Le32(buf, i) <= max)
            && (r.Some? ==> r.value.1 == 4 + Le32(buf, i))
            && (r.Some? ==> if Le32(buf, i) == 0 then r.value.0 == [] else IsCText(buf, i + 4, r.value.0))
  {
    hide CString, IsCText;
    if i + 4 <= |buf| {
      CStringIsText(buf, i + 4);
    }
  }

  /** The whole packet.  `decodable` says whether the name converts to UTF-8. */
  function Parse(buf: seq<byte>, decodable: bool): Parsed {
    if |buf| < 24 then Failed(None)
    else
      var name := UnicodeString(buf, 24, MAX_NAME);
      if name.None? || !decodable then Failed(None)
      else ParseNumbers(buf, 24 + name.value.1 + 2,
                        Info(buf[..16], Le32(buf, 16), Le32(buf, 20), name.value.0, 0, 0, 0, 0, [], []))
  }

  function ParseNumbers(buf: seq<byte>, i: nat, info: Info): Parsed {
    if i + 20 > |buf| then Failed(None)
    else ParseStrings(buf, i + 20, info.(version := Le32(buf, i), cpuType := Le32(buf, i + 4),
                                         partnerId := Le32(buf, i + 12), id := Le32(buf, i + 16)))
  }

  function ParseStrings(buf: seq<byte>, i: nat, info: Info): Parsed {
    var platform := AsciiString(buf, i, MAX_STRING);
    if platform.None? then Failed(None)
    else
      var j := i + platform.value.1;
      var model := AsciiString(buf, j, MAX_STRING);
      if model.None? then Failed(None)
      else ParseComponents(buf, j + model.value.1 + 1, info.(platform := platform.value.0, model := model.value.0))
  }

  function ParseComponents(buf: seq<byte>, i: nat, info: Info): Parsed {
    if i + 4 > |buf| || Le32(buf, i) > MAX_COMPONENTS then Failed(None)
    else ParseKey(buf, i + 4 + 8 * Le32(buf, i), info)
  }

  function ParseKey(buf: seq<byte>, i: nat, info: Info): Parsed {
    if i + 4 > |buf| then Failed(None)
    else
      var key := Le32(buf, i);
      if i + 4 < |buf| && (i + 8 > |buf| || i + 4 + Le32(buf, i + 4) > |buf|) then Failed(Some(key))
      else Parsed(info, key)
  }

  // ---- How far the parser reads ----

  /** Where reading code units from offset i ends: behind the first zero, or behind the buffer. */
  function ScanUnits(buf: seq<byte>, i: nat): (end: nat)
    ensures end >= i + 2
    decreases |buf| - i
  {
    if i + 2 > |buf| || Le16(buf, i) == 0 then i + 2 else ScanUnits(buf, i + 2)
  }

  function ScanBytes(buf: seq<byte>, i: nat): (end: nat)
    ensures end > i
    decreases |buf| - i
  {
    if i >= |buf| || buf[i] == 0 then i + 1 else ScanBytes(buf, i + 1)
  }

  /** The end of the farthest read for a string at offset i: its count, and then its text. */
  function UnicodeFar(buf: seq<byte>, i: nat, max: nat): nat {
    if i + 4 > |buf| then 0
    else if UnicodeString(buf, i, max).None? || Le32(buf, i) == 0 then i + 4
    else ScanUnits(buf, i + 4)
  }

  function AsciiFar(buf: seq<byte>, i: nat, max: nat): nat {
    if i + 4 > |buf| then 0
    else if AsciiString(buf, i, max).None? || Le32(buf, i) == 0 then i + 4
    else ScanBytes(buf, i + 4)
  }

  /** The end of the farthest read of the whole parse. */
  function ParseFar(buf: seq<byte>, decodable: bool): nat {
    if |buf| < 24 then 0
    else
      var name := UnicodeString(buf, 24, MAX_NAME);
      var far := Max(24, UnicodeFar(buf, 24, MAX_NAME));
      if name.None? || !decodable then far else NumbersFar(buf, 24 + name.value.1 + 2, far)
  }

  /** The same from offset i on, when reading has gone as far as `far`. */
  function NumbersFar(buf: seq<byte>, i: nat, far: nat): nat {
    if i + 20 > |buf| then far else PlatformFar(buf, i + 20, Max(far, i + 20))
  }

  function PlatformFar(buf: seq<byte>, i: nat, far: nat): nat {
    var platform := AsciiString(buf, i, MAX_STRING);
    var far1 := Max(far, AsciiFar(buf, i, MAX_STRING));
    if platform.None? then far1 else ModelFar(buf, i + platform.value.1, far1)
  }

  function ModelFar(buf: seq<byte>, i: nat, far: nat): nat {
    var model := AsciiString(buf, i, MAX_STRING);
    var far1 := Max(far, AsciiFar(buf, i, MAX_STRING));
    if model.None? then far1 else ComponentsFar(buf, i + model.value.1 + 1, far1)
  }

  function ComponentsFar(buf: seq<byte>, i: nat, far: nat): nat {
    if i + 4 > |buf| then far
    else if Le32(buf, i) > MAX_COMPONENTS then Max(far, i + 4)
    else KeyFar(buf, i + 4 + 8 * Le32(buf, i), Max(far, i + 4))
  }

  function KeyFar(buf: seq<byte>, i: nat, far: nat): nat {
    if i + 4 > |buf| then far
    else if i + 4 < |buf| && i + 8 <= |buf| then Max(Max(far, i + 4), i + 8) else Max(far, i + 4)
  }

  /** A name with an accepted count, not zero, and no zero unit from its text to the end of the buffer. */
  ghost predicate OpenName(buf: seq<byte>, i: nat) {
    && i + 4 <= |buf| && 0 < Le32(buf, i) <= 31 && i + 4 + 2 * Le32(buf, i) <= |buf|
    && forall k: nat :: i + 4 + 2 * k + 2 <= |buf| ==> Le16(buf, i + 4 + 2 * k) != 0
  }

  predicate OpenString(buf: seq<byte>, i: nat) {
    && i + 4 <= |buf| && 0 < Le32(buf, i) <= 255 && i + 4 + Le32(buf, i) <= |buf|
    && forall k :: i + 4 <= k < |buf| ==> buf[k] != 0
  }

  lemma {:induction false} UnitsScanned(buf: seq<byte>, i: nat)
    requires i <= |buf|
    ensures ScanUnits(buf, i) > |buf| <==> forall k: nat :: i + 2 * k + 2 <= |buf| ==> Le16(buf, i + 2 * k) != 0
    decreases |buf| - i
  {
    hide Le16;
    if i + 2 <= |buf| && Le16(buf, i) != 0 {
      UnitsScanned(buf, i + 2);
      forall k: nat | i + 2 * k + 2 <= |buf| && ScanUnits(buf, i) > |buf| ensures Le16(buf, i + 2 * k) != 0 {
        if k > 0 {
          assert Le16(buf, i + 2 + 2 * (k - 1)) != 0;
        }
      }
      if u: nat :| i + 2 + 2 * u + 2 <= |buf| && Le16(buf, i + 2 + 2 * u) == 0 {
        assert Le16(buf, i + 2 * (u + 1)) == 0;
      }
    } else if i + 2 <= |buf| {
      assert Le16(buf, i + 2 * 0) == 0;
    }
  }

  lemma {:induction false} BytesScanned(buf: seq<byte>, i: nat)
    requires i <= |buf|
    ensures ScanBytes(buf, i) > |buf| <==> forall k :: i <= k < |buf| ==> buf[k] != 0
    decreases |buf| - i
  {
    if i < |buf| && buf[i] != 0 {
      BytesScanned(buf, i + 1);
    }
  }

  lemma NamePastIff(buf: seq<byte>, i: nat)
    ensures UnicodeFar(buf, i, MAX_NAME) > |buf| <==> OpenName(buf, i)
  {
    hide Le16, Le32, ScanUnits;
    if i + 4 <= |buf| {
      UnitsScanned(buf, i + 4);
    }
  }

  lemma StringPastIff(buf: seq<byte>, i: nat)
    ensures AsciiFar(buf, i, MAX_STRING) > |buf| <==> OpenString(buf, i)
  {
    hide Le32, ScanBytes;
    if i + 4 <= |buf| {
      BytesScanned(buf, i + 4);
    }
  }

  /** Where the parser looks for the platform list and for the model, if it gets that far. */
  function PlatformAt(buf: seq<byte>, decodable: bool): Option<nat> {
    if |buf| < 24 || UnicodeString(buf, 24, MAX_NAME).None? || !decodable then None
    else
      var i := 24 + UnicodeString(buf, 24, MAX_NAME).value.1 + 2;
      if i + 20 > |buf| then None else Some(i + 20)
  }

  function ModelAt(buf: seq<byte>, decodable: bool): Option<nat> {
    var i := PlatformAt(buf, decodable);
    if i.None? || AsciiString(buf, i.value, MAX_STRING).None? then None
    else Some(i.value + AsciiString(buf, i.value, MAX_STRING).value.1)
  }

  /** The parser comes to a string that is not terminated within the buffer. */
  ghost predicate ComesToOpen(buf: seq<byte>, decodable: bool) {
    var p, m := PlatformAt(buf, decodable), ModelAt(buf, decodable);
    || (|buf| >= 24 && OpenName(buf, 24))
    || (p.Some? && OpenString(buf, p.value))
    || (m.Some? && OpenString(buf, m.value))
  }

  lemma RestInside(buf: seq<byte>, i: nat, far: nat)
    ensures ComponentsFar(buf, i, far) > |buf| <==> far > |buf|
  {
    hide Le32;
  }

  /** The parser reads past the packet exactly if it comes to a string that is not terminated: all its other reads are
      inside, whatever the bytes. */
  lemma ReadsPastIff(buf: seq<byte>, decodable: bool)
    ensures ParseFar(buf, decodable) > |buf| <==> ComesToOpen(buf, decodable)
  {
    hide Le32, UnicodeFar, AsciiFar, OpenName, OpenString, UnicodeString, AsciiString, ComponentsFar;
    NamePastIff(buf, 24);
    var p, m := PlatformAt(buf, decodable), ModelAt(buf, decodable);
    if p.Some? {
      StringPastIff(buf, p.value);
    }
    if m.Some? {
      StringPastIff(buf, m.value);
      var model := AsciiString(buf, m.value, MAX_STRING);
      if model.Some? {
        var far := Max(Max(24, UnicodeFar(buf, 24, MAX_NAME)), p.value);
        far := Max(Max(far, AsciiFar(buf, p.value, MAX_STRING)), AsciiFar(buf, m.value, MAX_STRING));
        RestInside(buf, m.value + model.value.1 + 1, far);
      }
    }
  }

  /** Where the parser looks for the component count, if it gets that far. */
  function CountAt(buf: seq<byte>, decodable: bool): Option<nat> {
    var i := ModelAt(buf, decodable);
    if i.None? || AsciiString(buf, i.value, MAX_STRING).None? then None
    else Some(i.value + AsciiString(buf, i.value, MAX_STRING).value.1 + 1)
  }

  /** Where the parser looks for the password key: behind the components, of which there are six at most. */
  function KeyAt(buf: seq<byte>, decodable: bool): Option<nat> {
    var c := CountAt(buf, decodable);
    if c.None? || c.value + 4 > |buf| || Le32(buf, c.value) > 6 then None
    else
      var i := c.value + 4 + 8 * Le32(buf, c.value);
      if i + 4 > |buf| then None else Some(i)
  }

  /** Nothing follows the key, or extra data of a size that counts itself and fits. */
  predicate ExtraFits(buf: seq<byte>, i: nat) {
    i == |buf| || (i + 4 <= |buf| && i + Le32(buf, i) <= |buf|)
  }

  /** A packet is accepted exactly if the parser comes to its key and what follows fits; the key is stored in any case
      once the parser has come to it. */
  lemma ParsedIff(buf: seq<byte>, decodable: bool)
    ensures var r, i := Parse(buf, decodable), KeyAt(buf, decodable);
            && (r.Parsed? <==> i.Some? && ExtraFits(buf, i.value + 4))
            && (r.Parsed? ==> r.pwKey == Le32(buf, i.value))
            && (r == Failed(None) <==> i.None?)
            && (r.Failed? && i.Some? ==> r == Failed(Some(Le32(buf, i.value))))
  {
    hide Le32, Units, CString, UnicodeString, AsciiString;
  }

  lemma CountHasZeros(buf: seq<byte>, i: nat)
    requires i + 4 <= |buf| && Le32(buf, i) <= MAX_COMPONENTS
    ensures buf[i + 1] == buf[i + 2] == buf[i + 3] == 0
  {
  }

  lemma ClosedByCount(buf: seq<byte>, i: nat, at: nat)
    requires at + 4 <= |buf| && Le32(buf, at) <= MAX_COMPONENTS && i + 4 <= at
    ensures i % 2 == 0 ==> !OpenName(buf, i)
    ensures !OpenString(buf, i)
  {
    hide Le32;
    CountHasZeros(buf, at);
    if i % 2 == 0 {
      var k := (at + 2 - i - 4) / 2;
      assert i + 4 + 2 * k == if at % 2 == 0 then at + 2 else at + 1;
      assert Le16(buf, i + 4 + 2 * k) == 0;
    }
  }

  /** So only packets refused before their password key is reached are read past: the zeros of the component count end
      every string. */
  lemma KeyMeansInside(buf: seq<byte>, decodable: bool)
    requires Parse(buf, decodable) != Failed(None)
    ensures ParseFar(buf, decodable) <= |buf|
  {
    hide Le32, OpenName, OpenString, ParseKey, Units, CString, ParseFar, ComesToOpen;
    var c := CountAt(buf, decodable);
    ReachesCount(buf, decodable);
    ReadsPastIff(buf, decodable);
    ClosedByCount(buf, 24, c.value);
    ClosedByCount(buf, PlatformAt(buf, decodable).value, c.value);
    ClosedByCount(buf, ModelAt(buf, decodable).value, c.value);
    NotOpen(buf, decodable);
  }

  lemma NotOpen(buf: seq<byte>, decodable: bool)
    requires !OpenName(buf, 24)
    requires PlatformAt(buf, decodable).Some? ==> !OpenString(buf, PlatformAt(buf, decodable).value)
    requires ModelAt(buf, decodable).Some? ==> !OpenString(buf, ModelAt(buf, decodable).value)
    ensures !ComesToOpen(buf, decodable)
  {
  }

  lemma ReachesCount(buf: seq<byte>, decodable: bool)
    requires Parse(buf, decodable) != Failed(None)
    ensures var p, m, c := PlatformAt(buf, decodable), ModelAt(buf, decodable), CountAt(buf, decodable);
            && p.Some? && m.Some? && c.Some? && 28 <= p.value && p.value + 4 <= m.value && m.value + 4 <= c.value
            && c.value + 4 <= |buf| && Le32(buf, c.value) <= MAX_COMPONENTS
  {
    hide Le32, ParseKey, Units, CString;
  }

  /** Such a packet exists: thirty bytes, with a name of one unit that is the last. */
  lemma ReadsPast(decodable: bool)
    ensures var buf := Zeros(24) + [1, 0, 0, 0] + [0x41, 0];
            |buf| == 30 && UnicodeString(buf, 24, MAX_NAME) == Some(([0x41], 6)) && ParseFar(buf, decodable) > |buf|
  {
    var buf := Zeros(24) + [1, 0, 0, 0] + [0x41, 0];
    assert Le32(buf, 24) == 1 && Le16(buf, 28) == 0x41;
    assert Units(buf, 28) == [0x41] + Units(buf, 30) == [0x41];
    assert forall k: nat :: 28 + 2 * k + 2 <= |buf| ==> k == 0;
    NamePastIff(buf, 24);
  }

  // ---- What the device sends ----

  datatype Record = Record(info: Info, unknown: u32, platformList: seq<byte>, components: seq<byte>,
                           pwKey: u32, extra: Option<seq<byte>>)
  {
    /** Counted strings hold no early terminator; the platform list carries its own. */
    predicate Valid() {
      && |info.guid| == 16
      && |info.name| <= MAX_NAME && (forall i :: 0 <= i < |info.name| ==> info.name[i] != 0)
      && |platformList| <= MAX_STRING && info.platform == CString(platformList, 0)
      && (platformList == [] || |CString(platformList, 0)| < |platformList|)
      && |info.model| <= MAX_STRING && (forall i :: 0 <= i < |info.model| ==> info.model[i] != 0)
      && |components| % 8 == 0 && |components| / 8 <= MAX_COMPONENTS
      && (extra.Some? ==> |extra.value| + 4 < U32)
    }
  }

  function UnitBytes(us: seq<u16>): (s: seq<byte>)
    ensures |s| == 2 * |us|
  {
    if us == [] then [] else ToLe16(us[0]) + UnitBytes(us[1..])
  }

  function Encode(r: Record): seq<byte>
    requires r.Valid()
  {
    r.info.guid + (ToLe32(r.info.osMajor) + (ToLe32(r.info.osMinor)
    + (ToLe32(|r.info.name|) + (UnitBytes(r.info.name) + ([0, 0] + EncodeNumbers(r))))))
  }

  function EncodeNumbers(r: Record): seq<byte>
    requires r.Valid()
  {
    ToLe32(r.info.version) + (ToLe32(r.info.cpuType) + (ToLe32(r.unknown)
    + (ToLe32(r.info.partnerId) + (ToLe32(r.info.id) + EncodeStrings(r)))))
  }

  function EncodeStrings(r: Record): seq<byte>
    requires r.Valid()
  {
    ToLe32(|r.platformList|)
        + (r.platformList + (ToLe32(|r.info.model|) + (r.info.model + ([0] + EncodeComponents(r)))))
  }

  function EncodeComponents(r: Record): seq<byte>
    requires r.Valid()
  {
    ToLe32(|r.components| / 8) + (r.components + EncodeKey(r))
  }

  function EncodeKey(r: Record): seq<byte>
    requires r.Valid()
  {
    ToLe32(r.pwKey) + match r.extra case None => [] case Some(x) => ToLe32(|x| + 4) + x
  }

  // ---- Round trip ----

  lemma {:induction false} UnitsAt(buf: seq<byte>, i: nat, us: seq<u16>)
    requires At(buf, i, UnitBytes(us) + [0, 0])
    requires forall k :: 0 <= k < |us| ==> us[k] != 0
    ensures Units(buf, i) == us
    decreases |us|
  {
    AtSplit(buf, i, UnitBytes(us), [0, 0]);
    if us == [] {
      assert buf[i] == buf[i..i + 2][0] == 0 && buf[i + 1] == buf[i..i + 2][1] == 0;
      assert Le16(buf, i) == 0;
    } else {
      var rest := UnitBytes(us[1..]);
      assert UnitBytes(us) + [0, 0] == ToLe16(us[0]) + (rest + [0, 0]);
      AtSplit(buf, i, ToLe16(us[0]), rest + [0, 0]);
      assert buf[i..i + 2] == ToLe16(us[0]);
      assert Le16(buf, i) == Le16(buf[i..i + 2], 0);
      UnitsAt(buf, i + 2, us[1..]);
    }
  }

  /** A string that ends before the bytes s do reads the same in place. */
  lemma {:induction false} CStringAt(buf: seq<byte>, i: nat, s: seq<byte>, k: nat)
    requires At(buf, i, s) && k <= |s| && k + |CString(s, k)| < |s|
    ensures CString(buf, i + k) == CString(s, k)
    decreases |s| - k
  {
    assert buf[i..i + |s|][k] == buf[i + k];
    if s[k] != 0 {
      CStringAt(buf, i, s, k + 1);
    }
  }

  lemma {:induction false} CStringWhole(s: seq<byte>, k: nat)
    requires k <= |s| && forall j :: 0 <= j < |s| ==> s[j] != 0
    ensures CString(s + [0], k) == s[k..]
    decreases |s| - k
  {
    if k < |s| {
      CStringWhole(s, k + 1);
    }
  }

  /** Parsing what the device encoded gives back every field and the password key. */
  lemma RoundTrip(r: Record)
    requires r.Valid()
    ensures Parse(Encode(r), true) == Parsed(r.info, r.pwKey)
  {
    hide Parse, ParseNumbers, ToLe32, At, Units, CString, UnitBytes, EncodeNumbers, Le32;
    var buf, n := Encode(r), |r.info.name|;
    var tail := [0, 0] + EncodeNumbers(r);
    AtWhole(buf);
    AtSplit(buf, 0, r.info.guid, ToLe32(r.info.osMajor) + (ToLe32(r.info.osMinor)
            + (ToLe32(n) + (UnitBytes(r.info.name) + tail))));
    AtWord(buf, 16, r.info.osMajor, ToLe32(r.info.osMinor) + (ToLe32(n) + (UnitBytes(r.info.name) + tail)));
    AtWord(buf, 20, r.info.osMinor, ToLe32(n) + (UnitBytes(r.info.name) + tail));
    AtWord(buf, 24, n, UnitBytes(r.info.name) + tail);
    AtSplit(buf, 28, UnitBytes(r.info.name), tail);
    AtSplit(buf, 28 + 2 * n, [0, 0], EncodeNumbers(r));
    AtSplit(buf, 28, UnitBytes(r.info.name), [0, 0]);
    UnitsAt(buf, 28, r.info.name);
    AtIs(buf, 0, r.info.guid);
    ParseNumbersAt(buf, 30 + 2 * n, r);
    ParseHead(buf, r);
  }

  lemma AtWhole(buf: seq<byte>)
    ensures At(buf, 0, buf)
  {
  }

  lemma ParseHead(buf: seq<byte>, r: Record)
    requires r.Valid() && |buf| >= 28 && buf[0..16] == r.info.guid
    requires Le32(buf, 16) == r.info.osMajor && Le32(buf, 20) == r.info.osMinor
    requires Le32(buf, 24) == |r.info.name| && 28 + 2 * |r.info.name| <= |buf| && Units(buf, 28) == r.info.name
    ensures Parse(buf, true) == ParseNumbers(buf, 30 + 2 * |r.info.name|,
      Info(r.info.guid, r.info.osMajor, r.info.osMinor, r.info.name, 0, 0, 0, 0, [], []))
  {
    hide ParseNumbers;
  }

  lemma ParseNumbersAt(buf: seq<byte>, i: nat, r: Record)
    requires r.Valid() && At(buf, i, EncodeNumbers(r)) && i + |EncodeNumbers(r)| == |buf|
    ensures ParseNumbers(buf, i,
        r.info.(version := 0, cpuType := 0, partnerId := 0, id := 0, platform := [], model := []))
         == Parsed(r.info, r.pwKey)
  {
    hide ParseStrings, ToLe32, At, EncodeStrings, Le32;
    var s := EncodeStrings(r);
    AtWord(buf, i, r.info.version,
        ToLe32(r.info.cpuType) + (ToLe32(r.unknown) + (ToLe32(r.info.partnerId) + (ToLe32(r.info.id) + s))));
    AtWord(buf, i + 4, r.info.cpuType, ToLe32(r.unknown) + (ToLe32(r.info.partnerId) + (ToLe32(r.info.id) + s)));
    AtWord(buf, i + 8, r.unknown, ToLe32(r.info.partnerId) + (ToLe32(r.info.id) + s));
    AtWord(buf, i + 12, r.info.partnerId, ToLe32(r.info.id) + s);
    AtWord(buf, i + 16, r.info.id, s);
    ParseStringsAt(buf, i + 20, r);
  }

  lemma ParseStringsAt(buf: seq<byte>, i: nat, r: Record)
    requires r.Valid() && At(buf, i, EncodeStrings(r)) && i + |EncodeStrings(r)| == |buf|
    ensures ParseStrings(buf, i, r.info.(platform := [], model := [])) == Parsed(r.info, r.pwKey)
  {
    hide ParseComponents, ToLe32, At, CString, EncodeComponents, Le32;
    var p, m, c := r.platformList, r.info.model, EncodeComponents(r);
    var tail := ToLe32(|m|) + (m + ([0] + c));
    AtWord(buf, i, |p|, p + tail);
    AtSplit(buf, i + 4, p, tail);
    if p != [] {
      CStringAt(buf, i + 4, p, 0);
    } else {
      EmptyCString(p);
    }
    var j := i + 4 + |p|;
    AtWord(buf, j, |m|, m + ([0] + c));
    AtSplit(buf, j + 4, m, [0] + c);
    AtSplit(buf, j + 4 + |m|, [0], c);
    AtSplit(buf, j + 4, m, [0]);
    CStringWhole(m, 0);
    CStringAt(buf, j + 4, m + [0], 0);
    AtIs(buf, j + 4 + |m| + 1, c);
    ParseComponentsAt(buf, j + 4 + |m| + 1, r);
  }

  lemma EmptyCString(s: seq<byte>)
    requires s == []
    ensures CString(s, 0) == []
  {
  }

  lemma ParseComponentsAt(buf: seq<byte>, i: nat, r: Record)
    requires r.Valid() && At(buf, i, EncodeComponents(r)) && i + |EncodeComponents(r)| == |buf|
    ensures ParseComponents(buf, i, r.info) == Parsed(r.info, r.pwKey)
  {
    hide ToLe32, At, CString, Le32;
    var tail := match r.extra case None => [] case Some(x) => ToLe32(|x| + 4) + x;
    AtWord(buf, i, |r.components| / 8, r.components + EncodeKey(r));
    AtSplit(buf, i + 4, r.components, EncodeKey(r));
    var j := i + 4 + |r.components|;
    AtWord(buf, j, r.pwKey, tail);
    if r.extra.Some? {
      AtWord(buf, j + 4, |r.extra.value| + 4, r.extra.value);
    }
  }

  // ---- The daemon's parser ----

  /** Every read of a fixed width is at an offset that leaves room for it: the indexing below would not verify
      otherwise.  For the strings `far` is where the farthest read ends. */
  method InfoReceived(buf: array<byte>, decodable: bool) returns (r: Parsed, far: nat)
    ensures r == Parse(buf[..], decodable) && far == ParseFar(buf[..], decodable)
  {
    hide Units, CString, Le32, UnicodeFar, AsciiFar, UnicodeString, AsciiString, Max;
    var end := buf.Length;
    r, far := Failed(None), 0;
    if 24 > end {
      return;
    }
    far := 24;
    var p := 16;
    var osMajor := Le32(buf[..], p);
    p := p + 4;
    var osMinor := Le32(buf[..], p);
    p := p + 4;
    var name := UnicodeString(buf[..], p, MAX_NAME);
    far := Max(far, UnicodeFar(buf[..], p, MAX_NAME));
    if name.None? || !decodable {
      return;
    }
    p := p + name.value.1 + 2;
    if p + 20 > end {
      return;
    }
    far := Max(far, p + 20);
    var version := Le32(buf[..], p);
    p := p + 4;
    var cpuType := Le32(buf[..], p);
    p := p + 8;
    var partnerId := Le32(buf[..], p);
    p := p + 4;
    var id := Le32(buf[..], p);
    p := p + 4;
    var platform := AsciiString(buf[..], p, MAX_STRING);
    far := Max(far, AsciiFar(buf[..], p, MAX_STRING));
    if platform.None? {
      return;
    }
    p := p + platform.value.1;
    var model := AsciiString(buf[..], p, MAX_STRING);
    far := Max(far, AsciiFar(buf[..], p, MAX_STRING));
    if model.None? {
      return;
    }
    p := p + model.value.1 + 1;
    if p + 4 > end {
      return;
    }
    far := Max(far, p + 4);
    var count := Le32(buf[..], p);
    if count > MAX_COMPONENTS {
      return;
    }
    p := p + 4 + 8 * count;
    if p + 4 > end {
      return;
    }
    far := Max(far, p + 4);
    var pwKey := Le32(buf[..], p);
    p := p + 4;
    if p < end {
      if p + 4 > end {
        return Failed(Some(pwKey)), far;
      }
      far := Max(far, p + 4);
      if p + Le32(buf[..], p) > end {
        return Failed(Some(pwKey)), far;
      }
    }
    r := Parsed(Info(buf[..16], osMajor, osMinor, name.value.0, version, cpuType, partnerId, id,
                     platform.value.0, model.value.0), pwKey);
  }
}
