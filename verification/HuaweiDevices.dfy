/** The connected-device page (`parseHuaweiUserDevices`, api/internal/router/huawei_adapter.go). */
module HuaweiDevices {
  import opened Prelude
  import opened JavaScript
  import opened HuaweiText
  import opened HuaweiCalls

  predicate IsHex(s: string) {
    forall i | 0 <= i < |s| :: HexValue(s[i]).Some?
  }

  /** Lower case as far as it can produce ASCII letters; U+0130 and U+212A do so too. */
  function LowerChar(c: char): char {
    if 'A' <= c <= 'Z' then (c as int + 32) as char
    else if c as int == 0x130 then 'i'
    else if c as int == 0x212A then 'k'
    else c
  }

  function Lower(s: string): string {
    seq(|s|, i requires 0 <= i < |s| => LowerChar(s[i]))
  }

  predicate IsSeparator(c: char) {
    c == ':' || c == '-' || c == '.'
  }

  /** `strings.NewReplacer(":", "", "-", "", ".", "")`. */
  function Strip(s: string): string {
    if s == [] then "" else (if IsSeparator(s[0]) then "" else [s[0]]) + Strip(s[1..])
  }

  /** Groups of `width` hex digits, `separator` between them. */
  predicate Grouped(s: string, width: nat, separator: char)
    decreases |s|
  {
    |s| >= width && IsHex(s[..width]) &&
    (|s| == width || (s[width] == separator && Grouped(s[width + 1..], width, separator)))
  }

  /** `net.ParseMAC`: the digits, in lower case, of a 6, 8 or 20 byte address in one of its notations. */
  function ParseMAC(s: string): Option<string> {
    if |s| < 14 then None
    else if s[2] == ':' || s[2] == '-' then
      if (|s| + 1) / 3 in {6, 8, 20} && Grouped(s, 2, s[2]) then Some(Lower(Strip(s))) else None
    else if s[4] == '.' then
      if 2 * (|s| + 1) / 5 in {6, 8, 20} && Grouped(s, 4, '.') then Some(Lower(Strip(s))) else None
    else None
  }

  /** Groups of `width` characters with `separator` between them. */
  function Separated(digits: string, width: nat, separator: char): string
    requires width > 0
    decreases |digits|
  {
    if |digits| <= width then digits
    else digits[..width] + ([separator] + Separated(digits[width..], width, separator))
  }

  /** Pairs of digits joined by colons. */
  function Colonised(digits: string): string {
    Separated(digits, 2, ':')
  }

  predicate LowerHex(s: string) {
    forall i | 0 <= i < |s| :: '0' <= s[i] <= '9' || 'a' <= s[i] <= 'f'
  }

  /** Six bytes in lower case with colons. */
  predicate Canonical(mac: string) {
    |Strip(mac)| == 12 && LowerHex(Strip(mac)) && mac == Colonised(Strip(mac))
  }

  datatype Device = Device(mac: string, ip: string, hostname: string, ssid: string, connection: string, online: bool,
      lastSeen: int)

  /** The argument positions of one kind of record; `realMAC` is the last of them. */
  datatype Layout = Layout(hostname: nat, ip: nat, mac: nat, status: nat, realMAC: nat, ssid: nat,
      connection: Option<nat>)

  const PTVDF := "stUserDevInfoPTVDF"
  const LAN := "USERDevice"
  const PTVDF_LAYOUT := Layout(0, 2, 3, 4, 9, 5, None)
  const LAN_LAYOUT := Layout(9, 1, 2, 6, 16, 3, Some(7))

  predicate WithinRealMAC(l: Layout) {
    l.hostname <= l.realMAC && l.ip <= l.realMAC && l.mac <= l.realMAC && l.status <= l.realMAC && l.ssid <= l.realMAC
  }

  /** The canonical address of a record, from the real MAC field when it parses and the MAC field otherwise. */
  function ChosenMAC(actual: string, fallback: string): Option<string> {
    var chosen := if ParseMAC(actual).Some? then actual else fallback;
    var compact := Strip(chosen);
    var parsed := ParseMAC(if |compact| == 12 then Colonised(compact) else chosen);
    if parsed.None? || |parsed.value| != 12 then None else Some(Colonised(parsed.value))
  }

  function IsOnline(status: string): bool {
    Lower(status) in {"1", "online", "connected", "up"}
  }

  /** The device that a record's decoded fields describe, if they are valid; `isIP` stands for `net.ParseIP`. */
  function ReadFields(fields: seq<string>, l: Layout, isIP: string -> bool, at: int): Option<Device>
    requires WithinRealMAC(l)
  {
    if |fields| <= l.realMAC then None
    else
      var mac := ChosenMAC(fields[l.realMAC], fields[l.mac]);
      if mac.None? then None
      else
        Some(Device(mac.value, if isIP(fields[l.ip]) then fields[l.ip] else "", fields[l.hostname], fields[l.ssid],
                    if l.connection.Some? && |fields| > l.connection.value then fields[l.connection.value] else "Wi-Fi",
                    IsOnline(fields[l.status]), at))
  }

  function ReadDevice(call: string, l: Layout, isIP: string -> bool, at: int): Option<Device>
    requires WithinRealMAC(l)
  {
    ReadFields(ParseFields(Split(call)), l, isIP, at)
  }

  function ReadAll(calls: seq<string>, l: Layout, isIP: string -> bool, at: int): seq<Option<Device>>
    requires WithinRealMAC(l)
  {
    Each(Reader(l, isIP, at), calls)
  }

  function Reader(l: Layout, isIP: string -> bool, at: int): string -> Option<Device>
    requires WithinRealMAC(l)
  {
    call => ReadDevice(call, l, isIP, at)
  }

  function Each(read: string -> Option<Device>, calls: seq<string>): seq<Option<Device>> {
    seq(|calls|, k requires 0 <= k < |calls| => read(calls[k]))
  }

  function Present(ds: seq<Option<Device>>): seq<Device> {
    if ds == [] then []
    else
      var last := ds[|ds| - 1];
      Present(ds[..|ds| - 1]) + if last.Some? then [last.value] else []
  }

  /** The valid records of one kind, in scan order. */
  function Candidates(calls: seq<string>, l: Layout, isIP: string -> bool, at: int): seq<Device>
    requires WithinRealMAC(l)
  {
    Present(ReadAll(calls, l, isIP, at))
  }

  function AllCandidates(document: string, isIP: string -> bool, at: int): seq<Device> {
    Candidates(FindCalls(PTVDF, document), PTVDF_LAYOUT, isIP, at)
      + Candidates(FindCalls(LAN, document), LAN_LAYOUT, isIP, at)
  }

  predicate Lists(ds: seq<Device>, mac: string) {
    exists d | d in ds :: d.mac == mac
  }

  /** Each address once, with the first device that carries it. */
  function Deduplicated(ds: seq<Device>): seq<Device> {
    if ds == [] then []
    else
      var kept, last := Deduplicated(ds[..|ds| - 1]), ds[|ds| - 1];
      if Lists(kept, last.mac) then kept else kept + [last]
  }

  predicate IsFirst(ds: seq<Device>, d: Device) {
    exists i | 0 <= i < |ds| :: ds[i] == d && forall j | 0 <= j < i :: ds[j].mac != d.mac
  }

  predicate Distinct(ds: seq<Device>) {
    forall i, j | 0 <= i < j < |ds| :: ds[i].mac != ds[j].mac
  }

  lemma {:induction false} DeduplicatedDistinct(ds: seq<Device>)
    ensures Distinct(Deduplicated(ds))
  {
    if ds == [] {
    } else {
      DeduplicatedDistinct(ds[..|ds| - 1]);
    }
  }

  /** Addresses come out pairwise distinct, none is lost, and the entry kept is the first in scan order. */
  lemma {:induction false} DeduplicatedExact(ds: seq<Device>)
    ensures Distinct(Deduplicated(ds))
    ensures forall d | d in ds :: Lists(Deduplicated(ds), d.mac)
    ensures forall d | d in Deduplicated(ds) :: IsFirst(ds, d)
  {
    DeduplicatedDistinct(ds);
    FirstsAreKept(ds);
  }

  lemma {:induction false} FirstsAreKept(ds: seq<Device>)
    ensures forall d | d in ds :: Lists(Deduplicated(ds), d.mac)
    ensures forall d | d in Deduplicated(ds) :: IsFirst(ds, d)
  {
    if ds == [] {
    } else {
      var front, last := ds[..|ds| - 1], ds[|ds| - 1];
      FirstsAreKept(front);
      assert ds == front + [last];
      forall d | d in ds ensures Lists(Deduplicated(ds), d.mac) {
        KeptListed(front, last, d);
      }
      forall d | d in Deduplicated(ds) ensures IsFirst(ds, d) {
        if d in Deduplicated(front) { FirstStays(front, last, d); } else { LastIsFirst(front, last); }
      }
    }
  }

  lemma KeptListed(front: seq<Device>, last: Device, d: Device)
    requires d in front + [last] && forall x | x in front :: Lists(Deduplicated(front), x.mac)
    ensures Lists(Deduplicated(front + [last]), d.mac)
  {
    assert (front + [last])[..|front|] == front;
    var kept := Deduplicated(front);
    if d in front {
      var x :| x in kept && x.mac == d.mac;
      assert x in kept + [last];
    } else {
      assert last in kept + [last];
    }
  }

  lemma FirstStays(front: seq<Device>, last: Device, d: Device)
    requires IsFirst(front, d)
    ensures IsFirst(front + [last], d)
  {
    var ds := front + [last];
    var i :| 0 <= i < |front| && front[i] == d && forall j | 0 <= j < i :: front[j].mac != d.mac;
    assert ds[i] == d;
    forall j | 0 <= j < i ensures ds[j].mac != d.mac { assert ds[j] == front[j]; }
  }

  lemma LastIsFirst(front: seq<Device>, last: Device)
    requires !Lists(Deduplicated(front), last.mac)
    requires forall d | d in front :: Lists(Deduplicated(front), d.mac)
    ensures IsFirst(front + [last], last)
  {
    var ds := front + [last];
    forall j | 0 <= j < |front| ensures ds[j].mac != last.mac {
      assert ds[j] == front[j] && front[j] in front;
    }
    assert ds[|front|] == last;
  }

  predicate NoSeparators(s: string) {
    forall i | 0 <= i < |s| :: !IsSeparator(s[i])
  }

  lemma {:induction false} StripLeavesNone(s: string)
    ensures NoSeparators(Strip(s))
  {
    if s == [] {
    } else {
      StripLeavesNone(s[1..]);
    }
  }

  lemma {:induction false} StripSeparated(digits: string, width: nat, separator: char)
    requires NoSeparators(digits) && width > 0 && IsSeparator(separator)
    ensures Strip(Separated(digits, width, separator)) == digits
    decreases |digits|
  {
    if |digits| <= width {
      StripPlain(digits);
    } else {
      StripSeparated(digits[width..], width, separator);
      StripGroup(digits[..width], separator, Separated(digits[width..], width, separator));
      assert digits == digits[..width] + digits[width..];
    }
  }

  lemma {:induction false} StripPlain(s: string)
    requires NoSeparators(s)
    ensures Strip(s) == s
  {
    if s == [] {
    } else {
      StripPlain(s[1..]);
      assert s == [s[0]] + s[1..];
    }
  }

  lemma HexHasNone(s: string)
    requires IsHex(s)
    ensures NoSeparators(s)
  {}

  lemma SeparatedStep(group: string, digits: string, width: nat, separator: char)
    requires width > 0 && |group| == width && digits != []
    ensures Separated(group + digits, width, separator) == group + ([separator] + Separated(digits, width, separator))
  {
    assert (group + digits)[..width] == group && (group + digits)[width..] == digits;
  }

  lemma {:induction false} SeparatedGrouped(digits: string, width: nat, separator: char)
    requires IsHex(digits) && width in {2, 4} && |digits| % width == 0 && digits != []
    ensures var s := Separated(digits, width, separator);
            && Grouped(s, width, separator) && |s| == |digits| + |digits| / width - 1
            && |s| >= width && s[..width] == digits[..width] && (|digits| > width ==> s[width] == separator)
    decreases |digits|
  {
    var s := Separated(digits, width, separator);
    if |digits| == width {
      assert s[..width] == digits[..width];
    } else {
      SeparatedGrouped(digits[width..], width, separator);
      GroupedStep(digits[..width], Separated(digits[width..], width, separator), width, separator);
      assert s[..width] == digits[..width];
    }
  }

  lemma GroupedStep(group: string, rest: string, width: nat, separator: char)
    requires IsHex(group) && |group| == width && width > 0 && Grouped(rest, width, separator)
    ensures Grouped(group + ([separator] + rest), width, separator)
  {
    var s := group + ([separator] + rest);
    assert s[..width] == group && s[width] == separator && s[width + 1..] == rest;
  }

  lemma StripGroup(group: string, separator: char, rest: string)
    requires NoSeparators(group) && IsSeparator(separator)
    ensures Strip(group + ([separator] + rest)) == group + Strip(rest)
  {
    StripPlain(group);
    StripAppend(group, [separator] + rest);
    StripSeparator(separator, rest);
  }

  lemma StripSeparator(separator: char, rest: string)
    requires IsSeparator(separator)
    ensures Strip([separator] + rest) == Strip(rest)
  {
    assert ([separator] + rest)[1..] == rest;
    assert "" + Strip(rest) == Strip(rest);
  }

  lemma {:induction false} GroupedIsSeparated(s: string, width: nat, separator: char)
    requires width > 0 && IsSeparator(separator) && Grouped(s, width, separator)
    ensures IsHex(Strip(s)) && Strip(s) != [] && s == Separated(Strip(s), width, separator)
    decreases |s|
  {
    var group := s[..width];
    if |s| == width {
      assert s == group;
      HexHasNone(group);
      StripPlain(group);
    } else {
      var rest := s[width + 1..];
      GroupedIsSeparated(rest, width, separator);
      assert s == group + ([separator] + rest);
      HexHasNone(group);
      StripGroup(group, separator, rest);
      SeparatedStep(group, Strip(rest), width, separator);
    }
  }

  lemma LowerOfLowerHex(s: string)
    requires LowerHex(s)
    ensures Lower(s) == s && IsHex(s)
  {}

  /** A canonical address is its own canonical form, whichever field it is found in. */
  lemma CanonicalIsKept(mac: string, other: string)
    requires Canonical(mac)
    ensures ParseMAC(mac) == Some(Strip(mac))
    ensures ChosenMAC(mac, other) == Some(mac)
    ensures ParseMAC(other).None? ==> ChosenMAC(other, mac) == Some(mac)
  {
    var digits := Strip(mac);
    LowerOfLowerHex(digits);
    ParsesNotations(digits);
  }

  /** Twelve, sixteen or forty hex digits in pairs with colons or dashes, or in fours with dots. */
  predicate IsNotation(s: string) {
    var digits := Strip(s);
    && IsHex(digits) && |digits| in {12, 16, 40}
    && s in {Separated(digits, 2, ':'), Separated(digits, 2, '-'), Separated(digits, 4, '.')}
  }

  lemma ParsesPairs(digits: string, separator: char)
    requires IsHex(digits) && |digits| in {12, 16, 40} && separator in {':', '-'}
    ensures ParseMAC(Separated(digits, 2, separator)) == Some(Lower(digits))
  {
    HexHasNone(digits);
    StripSeparated(digits, 2, separator);
    SeparatedGrouped(digits, 2, separator);
  }

  lemma ParsesFours(digits: string)
    requires IsHex(digits) && |digits| in {12, 16, 40}
    ensures ParseMAC(Separated(digits, 4, '.')) == Some(Lower(digits))
  {
    HexHasNone(digits);
    StripSeparated(digits, 4, '.');
    SeparatedGrouped(digits, 4, '.');
    DotsComeLater(Separated(digits, 4, '.'), digits);
    FoursFit(|digits|);
    ReadsFours(Separated(digits, 4, '.'));
  }

  lemma FoursFit(n: nat)
    requires n in {12, 16, 40}
    ensures var length := n + n / 4 - 1; length >= 14 && 2 * (length + 1) / 5 in {6, 8, 20}
  {}

  lemma ReadsFours(s: string)
    requires |s| >= 14 && 2 * (|s| + 1) / 5 in {6, 8, 20} && Grouped(s, 4, '.')
    requires s[2] != ':' && s[2] != '-' && s[4] == '.'
    ensures ParseMAC(s) == Some(Lower(Strip(s)))
  {}

  lemma ParsesNotations(digits: string)
    requires IsHex(digits) && |digits| in {12, 16, 40}
    ensures ParseMAC(Separated(digits, 2, ':')) == Some(Lower(digits))
    ensures ParseMAC(Separated(digits, 2, '-')) == Some(Lower(digits))
    ensures ParseMAC(Separated(digits, 4, '.')) == Some(Lower(digits))
  {
    ParsesPairs(digits, ':');
    ParsesPairs(digits, '-');
    ParsesFours(digits);
  }

  lemma DotsComeLater(s: string, digits: string)
    requires IsHex(digits) && |digits| > 4 && |s| >= 4 && s[..4] == digits[..4]
    ensures s[2] != ':' && s[2] != '-'
  {
    assert s[2] == s[..4][2] && HexValue(digits[2]).Some?;
  }

  lemma ParsedIsNotation(s: string)
    requires ParseMAC(s).Some?
    ensures IsNotation(s) && ParseMAC(s).value == Lower(Strip(s))
  {
    var width := if s[2] == ':' || s[2] == '-' then 2 else 4;
    var separator := s[width];
    GroupedIsSeparated(s, width, separator);
    var digits := Strip(s);
    GroupLength(digits, width, separator, s);
  }

  lemma {:induction false} GroupLength(digits: string, width: nat, separator: char, s: string)
    requires width in {2, 4} && s == Separated(digits, width, separator) && Grouped(s, width, separator)
    ensures |digits| % width == 0 && digits != [] && |s| == |digits| + |digits| / width - 1
    decreases |s|
  {
    if |digits| <= width {
      assert |s| == width;
    } else {
      assert s[width + 1..] == Separated(digits[width..], width, separator);
      GroupLength(digits[width..], width, separator, s[width + 1..]);
    }
  }

  /** `net.ParseMAC` reads exactly the three notations, in either case. */
  lemma ParseMACExact(s: string)
    ensures ParseMAC(s) == if IsNotation(s) then Some(Lower(Strip(s))) else None
  {
    if ParseMAC(s).Some? {
      ParsedIsNotation(s);
    } else if IsNotation(s) {
      ParsesNotations(Strip(s));
    }
  }

  /**
   The address is taken from the real MAC field when that parses and from the MAC field
   otherwise; it is accepted exactly when twelve hex digits are left of it without its
   separators, wherever they stand, and comes out in lower case with colons.
   */
  lemma ChosenExact(actual: string, fallback: string)
    ensures var digits := Strip(if IsNotation(actual) then actual else fallback);
            ChosenMAC(actual, fallback)
            == if |digits| == 12 && IsHex(digits) then Some(Separated(Lower(digits), 2, ':')) else None
  {
    ParseMACExact(actual);
    var chosen := if IsNotation(actual) then actual else fallback;
    var digits := Strip(chosen);
    ParseMACExact(chosen);
    StripLeavesNone(chosen);
    StripSeparated(digits, 2, ':');
    ParseMACExact(Separated(digits, 2, ':'));
    if |digits| == 12 && IsHex(digits) {
      ParsesNotations(digits);
    }
  }

  lemma {:induction false} StripAppend(a: string, b: string)
    ensures Strip(a + b) == Strip(a) + Strip(b)
  {
    if a == [] {
      assert a + b == b;
    } else {
      assert (a + b)[1..] == a[1..] + b;
      StripAppend(a[1..], b);
    }
  }

  lemma LowerHexOfHex(s: string)
    requires IsHex(s)
    ensures LowerHex(Lower(s))
  {
    forall i | 0 <= i < |s| ensures '0' <= Lower(s)[i] <= '9' || 'a' <= Lower(s)[i] <= 'f' {
      assert HexValue(s[i]).Some?;
    }
  }

  /** Whatever the fields hold, an accepted address is canonical. */
  lemma ChosenIsCanonical(actual: string, fallback: string)
    ensures ChosenMAC(actual, fallback).Some? ==> Canonical(ChosenMAC(actual, fallback).value)
  {
    ChosenExact(actual, fallback);
    var digits := Strip(if IsNotation(actual) then actual else fallback);
    if |digits| == 12 && IsHex(digits) {
      LowerHexOfHex(digits);
      LowerOfLowerHex(Lower(digits));
      HexHasNone(Lower(digits));
      StripSeparated(Lower(digits), 2, ':');
    }
  }

  lemma {:induction false} PresentIn(ds: seq<Option<Device>>, d: Device)
    requires d in Present(ds)
    ensures Some(d) in ds
  {
    var n := |ds| - 1;
    if d in Present(ds[..n]) {
      PresentIn(ds[..n], d);
    } else {
      assert ds[n] == Some(d);
    }
  }

  lemma ReadIsCanonical(fields: seq<string>, l: Layout, isIP: string -> bool, at: int)
    requires WithinRealMAC(l)
    ensures ReadFields(fields, l, isIP, at).Some? ==> Canonical(ReadFields(fields, l, isIP, at).value.mac)
  {
    if |fields| > l.realMAC {
      ChosenIsCanonical(fields[l.realMAC], fields[l.mac]);
    }
  }

  lemma CandidatesCanonical(calls: seq<string>, l: Layout, isIP: string -> bool, at: int)
    requires WithinRealMAC(l)
    ensures forall d | d in Candidates(calls, l, isIP, at) :: Canonical(d.mac)
  {
    var all := ReadAll(calls, l, isIP, at);
    forall d | d in Candidates(calls, l, isIP, at) ensures Canonical(d.mac) {
      PresentIn(all, d);
      var k :| 0 <= k < |calls| && all[k] == Some(d);
      ReadIsCanonical(ParseFields(Split(calls[k])), l, isIP, at);
    }
  }

  datatype DevicesError = NotRecognised | NoneValid

  datatype DeviceRecords = DeviceRecords(calls: seq<string>, layout: Layout)

  lemma DeduplicatedSnoc(ds: seq<Device>, d: Device)
    ensures Deduplicated(ds + [d]) == if Lists(Deduplicated(ds), d.mac) then Deduplicated(ds)
            else Deduplicated(ds) + [d]
  {
    assert (ds + [d])[..|ds|] == ds;
  }

  /** The loop over the records of one kind; `before` are the valid records already read. */
  method AddDevices(records: DeviceRecords, isIP: string -> bool, at: int, ghost before: seq<Device>,
      start: seq<Device>, known: set<string>)
    returns (devices: seq<Device>, seen: set<string>)
    requires WithinRealMAC(records.layout)
    requires start == Deduplicated(before) && forall mac :: mac in known <==> Lists(start, mac)
    ensures devices == Deduplicated(before + Candidates(records.calls, records.layout, isIP, at))
    ensures forall mac :: mac in seen <==> Lists(devices, mac)
  {
    devices, seen := start, known;
    assert before + [] == before;
    for k := 0 to |records.calls|
      invariant devices == Deduplicated(before + Candidates(records.calls[..k], records.layout, isIP, at))
      invariant forall mac :: mac in seen <==> Lists(devices, mac)
    {
      var device := ReadDevice(records.calls[k], records.layout, isIP, at);
      NextCandidate(records, k, isIP, at, before);
      if device.None? || device.value.mac in seen {
        continue;
      }
      ListsSnoc(devices, device.value);
      seen := seen + {device.value.mac};
      devices := devices + [device.value];
    }
    assert records.calls[..|records.calls|] == records.calls;
  }

  lemma ListsSnoc(ds: seq<Device>, d: Device)
    ensures forall mac :: Lists(ds + [d], mac) <==> Lists(ds, mac) || mac == d.mac
  {
    forall mac ensures Lists(ds + [d], mac) <==> Lists(ds, mac) || mac == d.mac {
      assert d in ds + [d] && forall x | x in ds :: x in ds + [d];
    }
  }

  lemma NextCandidate(records: DeviceRecords, k: nat, isIP: string -> bool, at: int, before: seq<Device>)
    requires k < |records.calls| && WithinRealMAC(records.layout)
    ensures var device := ReadDevice(records.calls[k], records.layout, isIP, at);
            var kept := Deduplicated(before + Candidates(records.calls[..k], records.layout, isIP, at));
            Deduplicated(before + Candidates(records.calls[..k + 1], records.layout, isIP, at))
            == if device.None? || Lists(kept, device.value.mac) then kept else kept + [device.value]
  {
    var done := records.calls[..k];
    assert records.calls[..k + 1] == done + [records.calls[k]];
    CandidatesSnoc(done, records.calls[k], records.layout, isIP, at);
    var device := ReadDevice(records.calls[k], records.layout, isIP, at);
    var found := Candidates(done, records.layout, isIP, at);
    if device.Some? {
      DeduplicatedSnoc(before + found, device.value);
      assert before + (found + [device.value]) == (before + found) + [device.value];
    }
  }

  lemma CandidatesSnoc(calls: seq<string>, call: string, l: Layout, isIP: string -> bool, at: int)
    requires WithinRealMAC(l)
    ensures var device := ReadDevice(call, l, isIP, at);
            Candidates(calls + [call], l, isIP, at)
            == if device.Some? then Candidates(calls, l, isIP, at) + [device.value] else Candidates(calls, l, isIP, at)
  {
    assert ReadAll(calls + [call], l, isIP, at) == ReadAll(calls, l, isIP, at) + [ReadDevice(call, l, isIP, at)];
    PresentSnoc(ReadAll(calls, l, isIP, at), ReadDevice(call, l, isIP, at));
  }

  lemma PresentSnoc(ds: seq<Option<Device>>, d: Option<Device>)
    ensures Present(ds + [d]) == if d.Some? then Present(ds) + [d.value] else Present(ds)
  {
    assert (ds + [d])[..|ds|] == ds;
    assert Present(ds) + [] == Present(ds);
  }

  /**
   The devices are the first valid record of each address, in scan order; a page
   with no record at all must be blank, and one with records must yield a device.
   */
  method ParseHuaweiUserDevices(document: string, isIP: string -> bool, recordedAt: int)
      returns (r: Result<seq<Device>, DevicesError>)
    ensures var candidates := AllCandidates(document, isIP, recordedAt);
            var recordless := FindCalls(PTVDF, document) == [] && FindCalls(LAN, document) == [];
            && (r == Err(NotRecognised) <==> recordless && TrimSpace(document) != "")
            && (r == Err(NoneValid) <==> !recordless && candidates == [])
            && (r.Ok? ==> r.value == Deduplicated(candidates))
    ensures r.Ok? ==> Distinct(r.value) && forall d | d in r.value :: Canonical(d.mac)
  {
    var ptvdf := DeviceRecords(FindCalls(PTVDF, document), PTVDF_LAYOUT);
    var lan := DeviceRecords(FindCalls(LAN, document), LAN_LAYOUT);
    var matchCount := |ptvdf.calls| + |lan.calls|;
    if matchCount == 0 && TrimSpace(document) != "" {
      return Err(NotRecognised);
    }
    ghost var first := Candidates(ptvdf.calls, PTVDF_LAYOUT, isIP, recordedAt);
    assert [] + first == first;
    var devices, seen := AddDevices(ptvdf, isIP, recordedAt, [], [], {});
    devices, seen := AddDevices(lan, isIP, recordedAt, first, devices, seen);
    DeduplicatedExact(AllCandidates(document, isIP, recordedAt));
    KeptAreCanonical(document, isIP, recordedAt);
    if matchCount > 0 && |devices| == 0 {
      return Err(NoneValid);
    }
    r := Ok(devices);
  }

  lemma KeptAreCanonical(document: string, isIP: string -> bool, at: int)
    ensures var candidates := AllCandidates(document, isIP, at);
            && (forall d | d in Deduplicated(candidates) :: Canonical(d.mac))
            && (Deduplicated(candidates) == [] <==> candidates == [])
  {
    var candidates := AllCandidates(document, isIP, at);
    CandidatesCanonical(FindCalls(PTVDF, document), PTVDF_LAYOUT, isIP, at);
    CandidatesCanonical(FindCalls(LAN, document), LAN_LAYOUT, isIP, at);
    DeduplicatedExact(candidates);
    forall d | d in Deduplicated(candidates) ensures d in candidates {
      assert IsFirst(candidates, d);
    }
    if candidates != [] {
      assert Lists(Deduplicated(candidates), candidates[0].mac);
    }
  }

  /** ASCII letters are lowered and nothing else changes below 128. */
  lemma LowersLetters(c: char)
    requires c as int < 128
    ensures LowerChar(c) == if 'A' <= c <= 'Z' then "abcdefghijklmnopqrstuvwxyz"[c as int - 65] else c
  {}

  /** Four words mean online, in any case; a few that do not. */
  lemma OnlineWords(status: string)
    ensures IsOnline(status) <==>
              var s := Lower(status); s == "1" || s == "online" || s == "connected" || s == "up"
    ensures IsOnline("1") && IsOnline("Online") && IsOnline("CONNECTED") && IsOnline("Up")
    ensures !IsOnline("") && !IsOnline("0") && !IsOnline("Offline") && !IsOnline("down")
  {
    assert Lower("1") == "1" && Lower("Online") == "online" && Lower("CONNECTED") == "connected" && Lower("Up") == "up";
    assert Lower("0") == "0" && |Lower("Offline")| == 7 && Lower("down") == "down" && |Lower("")| == 0;
    assert Lower("Offline")[1] == 'f';
  }

  /** A device record as the router prints it: on the LAN page, or among the PTVDF user devices. */
  datatype Listing = Listing(lan: bool, hostname: string, ip: string, mac: string, status: string, realMAC: string,
      ssid: string,
                             connection: string, filler: string)
  {
    function Columns(): seq<string> {
      if lan then
        [filler, ip, mac, ssid, filler, filler, status, connection, filler, hostname, filler, filler, filler,
        filler, filler,
         filler, realMAC]
      else
        [hostname, filler, ip, mac, status, ssid, filler, filler, filler, realMAC]
    }

    /** The device meant, if its address is valid; only the LAN page tells how it is connected. */
    function Means(isIP: string -> bool, at: int): Option<Device> {
      var chosen := ChosenMAC(realMAC, mac);
      if chosen.None? then None
      else Some(Device(chosen.value, if isIP(ip) then ip else "", hostname, ssid, if lan then connection else "Wi-Fi",
                       IsOnline(status), at))
    }

    predicate Printable() {
      && Latin(hostname) && Latin(ip) && Latin(mac) && Latin(status) && Latin(realMAC) && Latin(ssid)
      && Latin(connection) && Latin(filler)
    }
  }

  function LayoutOf(lan: bool): Layout {
    if lan then LAN_LAYOUT else PTVDF_LAYOUT
  }

  lemma ColumnsMean(r: Listing, isIP: string -> bool, at: int)
    ensures ReadFields(r.Columns(), LayoutOf(r.lan), isIP, at) == r.Means(isIP, at)
  {
    var columns := r.Columns();
    if r.lan {
      assert |columns| == 17 && columns[9] == r.hostname && columns[1] == r.ip && columns[2] == r.mac
             && columns[6] == r.status;
      assert columns[16] == r.realMAC && columns[3] == r.ssid && columns[7] == r.connection;
    } else {
      assert |columns| == 10 && columns[0] == r.hostname && columns[2] == r.ip && columns[3] == r.mac
             && columns[4] == r.status;
      assert columns[9] == r.realMAC && columns[5] == r.ssid;
    }
  }

  predicate AllPrintable(listings: seq<Listing>) {
    forall k | 0 <= k < |listings| :: listings[k].Printable()
  }

  function Body(r: Listing): string
    requires r.Printable()
  {
    assert forall i | 0 <= i < |r.Columns()| :: Latin(r.Columns()[i]);
    Join(PrintRecord(r.Columns(), {}))
  }

  function Prints(listings: seq<Listing>): seq<HuaweiCalls.Printed>
    requires AllPrintable(listings)
  {
    seq(|listings|, k requires 0 <= k < |listings| => HuaweiCalls.Printed(!listings[k].lan, Body(listings[k])))
  }

  /** A page with records of both kinds in any order. */
  function DevicePage(listings: seq<Listing>): string
    requires AllPrintable(listings)
  {
    MixedPage("stUserDevInfoPTVDF", "USERDevice", Prints(listings))
  }

  lemma ListingRead(r: Listing, isIP: string -> bool, at: int)
    requires r.Printable()
    ensures ReadDevice(Body(r), LayoutOf(r.lan), isIP, at) == r.Means(isIP, at)
  {
    assert forall i | 0 <= i < |r.Columns()| :: Latin(r.Columns()[i]);
    FieldsRead(r.Columns());
    ColumnsMean(r, isIP, at);
  }

  lemma FieldsRead(columns: seq<string>)
    requires columns != [] && forall i | 0 <= i < |columns| :: Latin(columns[i])
    ensures ParseFields(Split(Join(PrintRecord(columns, {})))) == columns
  {
    SplitPrinted(columns, {});
  }

  predicate PlainBody(body: string) {
    ')' !in body && 'P' !in body && 'R' !in body
  }

  lemma BodyIsPlain(r: Listing)
    requires r.Printable()
    ensures PlainBody(Body(r))
  {
    BodyLacks(r.Columns(), {}, 'P');
    BodyLacks(r.Columns(), {}, 'R');
    PrintedHasNoParenthesis(r.Columns(), {});
  }

  lemma NamesApart()
    ensures 'P' in PTVDF && 'P' !in LAN && ',' !in PTVDF && 'R' in LAN && 'R' !in PTVDF && ',' !in LAN
  {
    assert PTVDF[13] == 'P' && LAN[3] == 'R';
  }

  lemma KindsApart(listings: seq<Listing>, ptvdf: bool)
    requires AllPrintable(listings)
    ensures Telltale(NameOf(PTVDF, LAN, ptvdf), NameOf(PTVDF, LAN, !ptvdf), if ptvdf then 'P' else 'R',
            Prints(listings), ptvdf)
  {
    NamesApart();
    forall k | 0 <= k < |listings| ensures PlainBody(Prints(listings)[k].body) {
      BodyIsPlain(listings[k]);
    }
  }

  /** The devices meant by the records of one kind, in order. */
  function Meant(listings: seq<Listing>, lan: bool, isIP: string -> bool, at: int): seq<Device> {
    if listings == [] then []
    else
      (if listings[0].lan == lan && listings[0].Means(isIP, at).Some? then [listings[0].Means(isIP, at).value] else [])
      + Meant(listings[1..], lan, isIP, at)
  }

  lemma {:induction false} PresentCons(d: Option<Device>, ds: seq<Option<Device>>)
    ensures Present([d] + ds) == (if d.Some? then [d.value] else []) + Present(ds)
  {
    if ds == [] {
      assert [d] + ds == [d] && [d][..0] == [];
    } else {
      var n := |ds| - 1;
      assert ([d] + ds)[..n + 1] == [d] + ds[..n];
      PresentCons(d, ds[..n]);
    }
  }

  lemma ReadAllCons(call: string, calls: seq<string>, l: Layout, isIP: string -> bool, at: int)
    requires WithinRealMAC(l)
    ensures ReadAll([call] + calls, l, isIP, at) == [ReadDevice(call, l, isIP, at)] + ReadAll(calls, l, isIP, at)
  {
    EachCons(Reader(l, isIP, at), call, calls);
  }

  lemma EachCons(read: string -> Option<Device>, call: string, calls: seq<string>)
    ensures Each(read, [call] + calls) == [read(call)] + Each(read, calls)
  {}

  lemma CandidatesCons(call: string, calls: seq<string>, l: Layout, isIP: string -> bool, at: int)
    requires WithinRealMAC(l)
    ensures var d := ReadDevice(call, l, isIP, at);
            Candidates([call] + calls, l, isIP, at)
              == (if d.Some? then [d.value] else []) + Candidates(calls, l, isIP, at)
  {
    ReadAllCons(call, calls, l, isIP, at);
    PresentCons(ReadDevice(call, l, isIP, at), ReadAll(calls, l, isIP, at));
  }

  lemma BodiesStep(r: Listing, calls: seq<HuaweiCalls.Printed>, rest: seq<HuaweiCalls.Printed>, first: bool)
    requires r.Printable() && calls != [] && calls[0] == HuaweiCalls.Printed(!r.lan, Body(r)) && calls[1..] == rest
    ensures BodiesOf(calls, first) == if r.lan == first then BodiesOf(rest, first)
            else [Body(r)] + BodiesOf(rest, first)
  {
    assert [] + BodiesOf(rest, first) == BodiesOf(rest, first);
  }

  lemma {:induction false} MeantRead(listings: seq<Listing>, lan: bool, isIP: string -> bool, at: int)
    requires AllPrintable(listings)
    ensures Candidates(BodiesOf(Prints(listings), !lan), LayoutOf(lan), isIP, at) == Meant(listings, lan, isIP, at)
  {
    if listings == [] {
    } else {
      var r, rest := listings[0], listings[1..];
      MeantRead(rest, lan, isIP, at);
      assert Prints(listings)[1..] == Prints(rest);
      BodiesStep(r, Prints(listings), Prints(rest), !lan);
      if r.lan == lan {
        ListingRead(r, isIP, at);
        CandidatesCons(Body(r), BodiesOf(Prints(rest), !lan), LayoutOf(lan), isIP, at);
      }
    }
  }

  /**
   From the text of a page that mixes both kinds of records, exactly the devices they
   mean are read, those of the PTVDF records first.
   */
  lemma DevicePageRead(listings: seq<Listing>, isIP: string -> bool, at: int)
    requires AllPrintable(listings)
    ensures AllCandidates(DevicePage(listings), isIP, at)
            == Meant(listings, false, isIP, at) + Meant(listings, true, isIP, at)
    ensures |FindCalls(PTVDF, DevicePage(listings))| + |FindCalls(LAN, DevicePage(listings))| == |listings|
  {
    KindsApart(listings, true);
    KindsApart(listings, false);
    FoundAmong(PTVDF, LAN, true, 'P', Prints(listings));
    FoundAmong(PTVDF, LAN, false, 'R', Prints(listings));
    MeantRead(listings, false, isIP, at);
    MeantRead(listings, true, isIP, at);
    BodiesPartition(Prints(listings));
  }

  lemma {:induction false} BodiesPartition(calls: seq<HuaweiCalls.Printed>)
    ensures |BodiesOf(calls, true)| + |BodiesOf(calls, false)| == |calls|
  {
    if calls == [] {
    } else {
      BodiesPartition(calls[1..]);
    }
  }

  predicate Printed(d: Device, isIP: string -> bool, at: int) {
    && Canonical(d.mac) && (d.ip == "" || isIP(d.ip)) && d.lastSeen == at
    && Latin(d.ip) && Latin(d.mac) && Latin(d.ssid) && Latin(d.connection) && Latin(d.hostname)
  }

  predicate AllPrinted(ds: seq<Device>, isIP: string -> bool, at: int) {
    forall k | 0 <= k < |ds| :: Printed(ds[k], isIP, at)
  }

  function ListingOf(d: Device): Listing {
    Listing(true, d.hostname, d.ip, d.mac, if d.online then "Online" else "Offline", d.mac, d.ssid, d.connection, "")
  }

  function ListingsOf(ds: seq<Device>): seq<Listing> {
    seq(|ds|, k requires 0 <= k < |ds| => ListingOf(ds[k]))
  }

  lemma ListingMeans(d: Device, isIP: string -> bool, at: int)
    requires Printed(d, isIP, at)
    ensures ListingOf(d).Printable() && ListingOf(d).Means(isIP, at) == Some(d)
  {
    CanonicalIsKept(d.mac, d.mac);
    OnlineWords("");
  }

  lemma {:induction false} ListingsMean(ds: seq<Device>, isIP: string -> bool, at: int)
    requires AllPrinted(ds, isIP, at)
    ensures AllPrintable(ListingsOf(ds))
    ensures Meant(ListingsOf(ds), true, isIP, at) == ds && Meant(ListingsOf(ds), false, isIP, at) == []
  {
    ListingsPrintable(ds, isIP, at);
    if ds == [] {
    } else {
      ListingMeans(ds[0], isIP, at);
      ListingsMean(ds[1..], isIP, at);
      assert ListingsOf(ds)[1..] == ListingsOf(ds[1..]) && ListingsOf(ds)[0] == ListingOf(ds[0]);
      assert ds == [ds[0]] + ds[1..];
    }
  }

  lemma ListingsPrintable(ds: seq<Device>, isIP: string -> bool, at: int)
    requires AllPrinted(ds, isIP, at)
    ensures AllPrintable(ListingsOf(ds))
  {
    forall k | 0 <= k < |ds| ensures ListingsOf(ds)[k].Printable() {
      ListingMeans(ds[k], isIP, at);
    }
  }

  lemma {:induction false} DistinctUnchanged(ds: seq<Device>)
    requires Distinct(ds)
    ensures Deduplicated(ds) == ds
  {
    if ds == [] {
    } else {
      var n := |ds| - 1;
      DistinctUnchanged(ds[..n]);
      assert !Lists(ds[..n], ds[n].mac);
      assert ds == ds[..n] + [ds[n]];
    }
  }

  function LanPage(ds: seq<Device>, isIP: string -> bool, at: int): string
    requires AllPrinted(ds, isIP, at)
  {
    ListingsMean(ds, isIP, at);
    DevicePage(ListingsOf(ds))
  }

  /**
   Page round trip: a page listing devices with distinct canonical addresses is
   read back as exactly those devices, in order.
   */
  lemma PageRoundTrip(ds: seq<Device>, isIP: string -> bool, at: int)
    requires AllPrinted(ds, isIP, at) && Distinct(ds)
    ensures |FindCalls(PTVDF, LanPage(ds, isIP, at))| + |FindCalls(LAN, LanPage(ds, isIP, at))| == |ds|
    ensures Deduplicated(AllCandidates(LanPage(ds, isIP, at), isIP, at)) == ds
  {
    ListingsMean(ds, isIP, at);
    DevicePageRead(ListingsOf(ds), isIP, at);
    DistinctUnchanged(ds);
    assert [] + ds == ds;
  }
}
