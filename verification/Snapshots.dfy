/** Device rows and presence readings (api/internal/store/devices.go, and the active-device count of usage.go). */
module Snapshots {
  import opened Prelude

  datatype Field = Hostname | Ssid | Connection

  /** One entry of the router's device list. */
  datatype Entry = Entry(mac: string, ip: string, hostname: string, ssid: string, connection: string, online: bool)
  {
    function Get(f: Field): string {
      match f
      case Hostname => hostname
      case Ssid => ssid
      case Connection => connection
    }
  }

  datatype Row = Row(mac: string, hostname: string, ssid: string, connection: string, firstSeen: int, lastSeen: int,
      archived: bool)
  {
    function Get(f: Field): string {
      match f
      case Hostname => hostname
      case Ssid => ssid
      case Connection => connection
    }
  }

  datatype Key = Key(device: int, at: int)

  /**
   `readings` is unique per device and instant; `addresses` maps a device and address to its
   first and last sighting.
   */
  datatype Tables = Tables(devices: map<int, Row>, readings: map<Key, bool>, addresses: map<(int, string), (int, int)>,
      nextDevice: int)

  const EMPTY := Tables(map[], map[], map[], 1)

  function WithMac(devices: map<int, Row>, mac: string): set<int> {
    set d | d in devices && devices[d].mac == mac
  }

  /** `coalesce(nullif(new,''),old)`; an empty string stands for a missing value. */
  function Coalesce(new_: string, old_: string): string {
    if new_ != "" then new_ else old_
  }

  /** Every known device is first marked offline at the instant. */
  function MarkedAbsent(t: Tables, at: int): Tables {
    t.(readings := t.readings + map d | d in t.devices :: Key(d, at) := false)
  }

  function IdOf(t: Tables, mac: string): int {
    if WithMac(t.devices, mac) != {} then Least(WithMac(t.devices, mac)) else t.nextDevice
  }

  function RowAfter(t: Tables, e: Entry, at: int): Row {
    if WithMac(t.devices, e.mac) != {} then
      var row := t.devices[IdOf(t, e.mac)];
      Row(e.mac, Coalesce(e.hostname, row.hostname), Coalesce(e.ssid, row.ssid), Coalesce(e.connection, row.connection),
        row.firstSeen, at, false)
    else Row(e.mac, e.hostname, e.ssid, e.connection, at, at, false)
  }

  /** One entry: upsert the device, its address, and its reading. */
  function Upserted(t: Tables, e: Entry, at: int): Tables {
    var id := IdOf(t, e.mac);
    Tables(t.devices[id := RowAfter(t, e, at)],
           t.readings[Key(id, at) := e.online],
           if e.ip == "" then t.addresses
           else t.addresses[(id, e.ip) := (if (id, e.ip) in t.addresses then t.addresses[(id, e.ip)].0 else at, at)],
           if id == t.nextDevice then t.nextDevice + 1 else t.nextDevice)
  }

  function UpsertedAll(t: Tables, entries: seq<Entry>, at: int): Tables {
    if entries == [] then t
    else Upserted(UpsertedAll(t, entries[..|entries| - 1], at), entries[|entries| - 1], at)
  }

  function Recorded(t: Tables, entries: seq<Entry>, at: int): Tables {
    UpsertedAll(MarkedAbsent(t, at), entries, at)
  }

  function Archived(t: Tables, d: int, archived: bool): Tables {
    if d !in t.devices then t else t.(devices := t.devices[d := t.devices[d].(archived := archived)])
  }

  function Deleted(t: Tables, d: int): Tables {
    if d !in t.devices || !t.devices[d].archived then t
    else Tables(t.devices - {d},
                map k | k in t.readings && k.device != d :: t.readings[k],
                map k | k in t.addresses && k.0 != d :: t.addresses[k],
                t.nextDevice)
  }

  function Pruned(t: Tables, before: int): Tables {
    t.(readings := map k | k in t.readings && k.at >= before :: t.readings[k])
  }

  /** `distinct on (device_id) ... order by device_id, recorded_at desc`. */
  predicate IsLatest(readings: map<Key, bool>, k: Key) {
    k in readings && forall other | other in readings :: other.device == k.device ==> other.at <= k.at
  }

  /** The devices whose latest reading is online; `ActiveDevices` is how many there are. */
  function Active(t: Tables): set<int> {
    set k | k in t.readings && IsLatest(t.readings, k) && t.readings[k] :: k.device
  }

  /** Whether the last entry for an address is online; an unlisted address is not. */
  function LastOnline(entries: seq<Entry>, mac: string): bool {
    if entries == [] then false
    else if entries[|entries| - 1].mac == mac then entries[|entries| - 1].online
    else LastOnline(entries[..|entries| - 1], mac)
  }

  class Store {
    var devices: map<int, Row>
    var readings: map<Key, bool>
    var addresses: map<(int, string), (int, int)>
    var nextDevice: int

    function Contents(): Tables
      reads this
    {
      Tables(devices, readings, addresses, nextDevice)
    }

    constructor ()
      ensures Contents() == EMPTY
    {
      devices, readings, addresses, nextDevice := map[], map[], map[], 1;
    }

    method RecordDevices(entries: seq<Entry>, at: int)
      modifies this
      ensures Contents() == Recorded(old(Contents()), entries, at)
    {
      ghost var marked := MarkedAbsent(Contents(), at);
      readings := readings + map d | d in devices :: Key(d, at) := false;
      for i := 0 to |entries|
        invariant Contents() == UpsertedAll(marked, entries[..i], at)
      {
        assert entries[..i + 1][..i] == entries[..i];
        Upsert(entries[i], at);
      }
      assert entries[..|entries|] == entries;
    }

    method Upsert(e: Entry, at: int)
      modifies this
      ensures Contents() == Upserted(old(Contents()), e, at)
    {
      var known := WithMac(devices, e.mac);
      var id := nextDevice;
      if known != {} {
        id := Least(known);
        var row := devices[id];
        devices := devices[id := Row(e.mac, Coalesce(e.hostname, row.hostname), Coalesce(e.ssid, row.ssid),
                                     Coalesce(e.connection, row.connection), row.firstSeen, at, false)];
      } else {
        devices := devices[id := Row(e.mac, e.hostname, e.ssid, e.connection, at, at, false)];
      }
      if e.ip != "" {
        var first := if (id, e.ip) in addresses then addresses[(id, e.ip)].0 else at;
        addresses := addresses[(id, e.ip) := (first, at)];
      }
      readings := readings[Key(id, at) := e.online];
      if id == nextDevice {
        nextDevice := nextDevice + 1;
      }
    }
  }

  /** Addresses identify devices, ids are from the past, and readings belong to devices. */
  ghost predicate Keyed(t: Tables) {
    && (forall d | d in t.devices :: d < t.nextDevice)
    && (forall a, b | a in t.devices && b in t.devices && t.devices[a].mac == t.devices[b].mac :: a == b)
    && (forall k | k in t.readings :: k.device in t.devices)
  }

  /** Every device has its reading at the instant: the last word of the list about it. */
  ghost predicate Shows(t: Tables, entries: seq<Entry>, at: int) {
    forall d | d in t.devices ::
      Key(d, at) in t.readings && t.readings[Key(d, at)] == LastOnline(entries, t.devices[d].mac)
  }

  lemma IdOfKnown(t: Tables, mac: string)
    requires Keyed(t)
    ensures IdOf(t, mac) in t.devices <==> WithMac(t.devices, mac) != {}
    ensures IdOf(t, mac) in t.devices ==> t.devices[IdOf(t, mac)].mac == mac
    ensures forall d | d in t.devices && t.devices[d].mac == mac :: d == IdOf(t, mac)
  {
    forall d | d in t.devices && t.devices[d].mac == mac ensures d == IdOf(t, mac) {
      assert d in WithMac(t.devices, mac);
    }
  }

  lemma UpsertKeeps(t: Tables, e: Entry, at: int)
    requires Keyed(t)
    ensures Keyed(Upserted(t, e, at))
    ensures forall k | k in t.readings && k.at != at ::
            k in Upserted(t, e, at).readings && Upserted(t, e, at).readings[k] == t.readings[k]
    ensures forall k | k in Upserted(t, e, at).readings && k.at != at :: k in t.readings
    ensures t.devices.Keys <= Upserted(t, e, at).devices.Keys
  {
    IdOfKnown(t, e.mac);
  }

  lemma UpsertShows(t: Tables, done: seq<Entry>, e: Entry, at: int)
    requires Keyed(t) && Shows(t, done, at)
    ensures Shows(Upserted(t, e, at), done + [e], at)
  {
    IdOfKnown(t, e.mac);
    assert (done + [e])[..|done|] == done;
  }

  lemma {:induction false} UpsertAllKeeps(t: Tables, entries: seq<Entry>, at: int)
    requires Keyed(t) && Shows(t, [], at)
    ensures Keyed(UpsertedAll(t, entries, at)) && Shows(UpsertedAll(t, entries, at), entries, at)
    ensures forall k: Key | k.at != at :: k in t.readings <==> k in UpsertedAll(t, entries, at).readings
    ensures forall k | k in t.readings && k.at != at :: UpsertedAll(t, entries, at).readings[k] == t.readings[k]
  {
    if entries == [] {
    } else {
      var front, e := entries[..|entries| - 1], entries[|entries| - 1];
      UpsertAllKeeps(t, front, at);
      UpsertKeeps(UpsertedAll(t, front, at), e, at);
      UpsertShows(UpsertedAll(t, front, at), front, e, at);
      assert front + [e] == entries;
    }
  }

  /**
   A snapshot leaves every device row with its one reading at that instant,
   online only if the device's last entry is; other instants are untouched.
   */
  lemma SnapshotExact(t: Tables, entries: seq<Entry>, at: int)
    requires Keyed(t)
    ensures Keyed(Recorded(t, entries, at)) && Shows(Recorded(t, entries, at), entries, at)
    ensures forall k: Key | k.at != at :: k in t.readings <==> k in Recorded(t, entries, at).readings
    ensures forall k | k in t.readings && k.at != at :: Recorded(t, entries, at).readings[k] == t.readings[k]
  {
    UpsertAllKeeps(MarkedAbsent(t, at), entries, at);
  }

  predicate Mentions(entries: seq<Entry>, mac: string) {
    entries != [] && (entries[|entries| - 1].mac == mac || Mentions(entries[..|entries| - 1], mac))
  }

  /** The last non-empty value the entries give for an address, and `old` when they give none. */
  function LastWord(entries: seq<Entry>, mac: string, f: Field, old_: string): string {
    if entries == [] then old_
    else
      var last := entries[|entries| - 1];
      if last.mac == mac && last.Get(f) != "" then last.Get(f) else LastWord(entries[..|entries| - 1], mac, f, old_)
  }

  lemma {:induction false} UnmentionedSaysNothing(entries: seq<Entry>, mac: string, f: Field, old_: string)
    requires !Mentions(entries, mac)
    ensures LastWord(entries, mac, f, old_) == old_
  {
    if entries == [] {
    } else {
      UnmentionedSaysNothing(entries[..|entries| - 1], mac, f, old_);
    }
  }

  /** A row after the entries, for a device known before. */
  predicate Updated(before: Row, row: Row, entries: seq<Entry>, at: int, f: Field) {
    && row.mac == before.mac && row.firstSeen == before.firstSeen
    && row.Get(f) == LastWord(entries, row.mac, f, before.Get(f))
    && (if Mentions(entries, row.mac) then row.lastSeen == at && !row.archived else row == before)
  }

  /** A row after the entries, for a device first seen in them. */
  predicate Introduced(row: Row, entries: seq<Entry>, at: int, f: Field) {
    && Mentions(entries, row.mac) && row.firstSeen == at && row.lastSeen == at && !row.archived
    && row.Get(f) == LastWord(entries, row.mac, f, "")
  }

  ghost predicate RowsFollow(before: map<int, Row>, devices: map<int, Row>, entries: seq<Entry>, at: int, f: Field) {
    && before.Keys <= devices.Keys
    && (forall d | d in before :: Updated(before[d], devices[d], entries, at, f))
    && (forall d | d in devices && d !in before :: Introduced(devices[d], entries, at, f))
  }

  ghost predicate AllMentionedKnown(devices: map<int, Row>, entries: seq<Entry>) {
    forall mac :: Mentions(entries, mac) ==> WithMac(devices, mac) != {}
  }

  lemma MentionsSnoc(entries: seq<Entry>, e: Entry, mac: string, f: Field, old_: string)
    ensures Mentions(entries + [e], mac) <==> e.mac == mac || Mentions(entries, mac)
    ensures LastWord(entries + [e], mac, f, old_) == if e.mac == mac
            then Coalesce(e.Get(f), LastWord(entries, mac, f, old_)) else LastWord(entries, mac, f, old_)
  {
    assert (entries + [e])[..|entries|] == entries;
  }

  lemma UpdatedSnoc(before: Row, row: Row, done: seq<Entry>, e: Entry, at: int, f: Field, next: Row)
    requires Updated(before, row, done, at, f)
    requires if e.mac == row.mac
             then next.mac == row.mac && next.firstSeen == row.firstSeen && next.lastSeen == at && !next.archived
                                      && next.Get(f) == Coalesce(e.Get(f), row.Get(f))
             else next == row
    ensures Updated(before, next, done + [e], at, f)
  {
    MentionsSnoc(done, e, row.mac, f, before.Get(f));
  }

  lemma IntroducedSnoc(row: Row, done: seq<Entry>, e: Entry, at: int, f: Field, next: Row)
    requires Introduced(row, done, at, f)
    requires if e.mac == row.mac
             then next.mac == row.mac && next.firstSeen == row.firstSeen && next.lastSeen == at && !next.archived
                                      && next.Get(f) == Coalesce(e.Get(f), row.Get(f))
             else next == row
    ensures Introduced(next, done + [e], at, f)
  {
    MentionsSnoc(done, e, row.mac, f, "");
  }

  lemma NewcomerIntroduced(done: seq<Entry>, e: Entry, at: int, f: Field)
    requires !Mentions(done, e.mac)
    ensures Introduced(Row(e.mac, e.hostname, e.ssid, e.connection, at, at, false), done + [e], at, f)
  {
    MentionsSnoc(done, e, e.mac, f, "");
    UnmentionedSaysNothing(done, e.mac, f, "");
  }

  lemma UpsertFollows(before: map<int, Row>, t: Tables, done: seq<Entry>, e: Entry, at: int, f: Field)
    requires Keyed(t) && RowsFollow(before, t.devices, done, at, f) && AllMentionedKnown(t.devices, done)
    ensures RowsFollow(before, Upserted(t, e, at).devices, done + [e], at, f)
  {
    IdOfKnown(t, e.mac);
    var id, devices := IdOf(t, e.mac), Upserted(t, e, at).devices;
    forall d | d in before ensures Updated(before[d], devices[d], done + [e], at, f) {
      UpdatedSnoc(before[d], t.devices[d], done, e, at, f, devices[d]);
    }
    forall d | d in devices && d !in before ensures Introduced(devices[d], done + [e], at, f) {
      if d in t.devices {
        IntroducedSnoc(t.devices[d], done, e, at, f, devices[d]);
      } else {
        NewcomerIntroduced(done, e, at, f);
      }
    }
  }

  lemma UpsertKnows(t: Tables, done: seq<Entry>, e: Entry, at: int)
    requires Keyed(t) && AllMentionedKnown(t.devices, done)
    ensures AllMentionedKnown(Upserted(t, e, at).devices, done + [e])
  {
    IdOfKnown(t, e.mac);
    var devices := Upserted(t, e, at).devices;
    forall mac | Mentions(done + [e], mac) ensures WithMac(devices, mac) != {} {
      MentionsSnoc(done, e, mac, Hostname, "");
      if mac == e.mac {
        assert IdOf(t, mac) in WithMac(devices, mac);
      } else {
        var known := Least(WithMac(t.devices, mac));
        assert known in WithMac(devices, mac);
      }
    }
  }

  lemma {:induction false} RowsAfterAll(t: Tables, entries: seq<Entry>, at: int, f: Field)
    requires Keyed(t) && Shows(t, [], at)
    ensures RowsFollow(t.devices, UpsertedAll(t, entries, at).devices, entries, at, f)
    ensures AllMentionedKnown(UpsertedAll(t, entries, at).devices, entries)
  {
    if entries == [] {
    } else {
      var front, e := entries[..|entries| - 1], entries[|entries| - 1];
      UpsertAllKeeps(t, front, at);
      RowsAfterAll(t, front, at, f);
      UpsertFollows(t.devices, UpsertedAll(t, front, at), front, e, at, f);
      UpsertKnows(UpsertedAll(t, front, at), front, e, at);
      assert front + [e] == entries;
    }
  }

  /**
   Device rows after a snapshot: the listed ones are seen now and revived, each
   field holds the last non-empty value given for it, the first sighting is never
   moved, and rows that are not listed stay as they were.
   */
  lemma SnapshotRows(t: Tables, entries: seq<Entry>, at: int, f: Field)
    requires Keyed(t)
    ensures RowsFollow(t.devices, Recorded(t, entries, at).devices, entries, at, f)
    ensures forall mac :: Mentions(entries, mac) ==> WithMac(Recorded(t, entries, at).devices, mac) != {}
  {
    RowsAfterAll(MarkedAbsent(t, at), entries, at, f);
  }

  /** Some entry gives this address to the device of this MAC. */
  predicate Places(entries: seq<Entry>, mac: string, ip: string) {
    ip != "" && exists e | e in entries :: e.mac == mac && e.ip == ip
  }

  /**
   The sighting of an address: unless placed by an entry it is untouched; otherwise it is last
   seen now and keeps an earlier first sighting.
   */
  predicate Sighted(before: map<(int, string), (int, int)>, after: map<(int, string), (int, int)>, key: (int, string),
      placed: bool, at: int) {
    if placed then key in after && after[key] == (if key in before then before[key].0 else at, at)
    else (key in after <==> key in before) && (key in after ==> after[key] == before[key])
  }

  ghost predicate AddressesFollow(t: Tables, after: Tables, entries: seq<Entry>, at: int) {
    forall d: int, ip: string ::
      Sighted(t.addresses, after.addresses, (d, ip), d in after.devices && Places(entries, after.devices[d].mac, ip),
        at)
  }

  lemma PlacesSnoc(entries: seq<Entry>, e: Entry, mac: string, ip: string)
    ensures Places(entries + [e], mac, ip) <==> Places(entries, mac, ip) || (ip != "" && e.mac == mac && e.ip == ip)
  {
    assert e in entries + [e] && forall x | x in entries :: x in entries + [e];
  }

  lemma {:induction false} PlacedIsMentioned(entries: seq<Entry>, mac: string, ip: string)
    requires Places(entries, mac, ip)
    ensures Mentions(entries, mac)
  {
    var n := |entries| - 1;
    assert entries == entries[..n] + [entries[n]];
    if entries[n].mac != mac {
      PlacesSnoc(entries[..n], entries[n], mac, ip);
      PlacedIsMentioned(entries[..n], mac, ip);
    }
  }

  lemma UpsertSights(t: Tables, mid: Tables, done: seq<Entry>, e: Entry, at: int, d: int, ip: string)
    requires Keyed(mid) && AddressesFollow(t, mid, done, at) && AllMentionedKnown(mid.devices, done)
    ensures var after := Upserted(mid, e, at);
            Sighted(t.addresses, after.addresses, (d, ip),
              d in after.devices && Places(done + [e], after.devices[d].mac, ip), at)
  {
    var after, id := Upserted(mid, e, at), IdOf(mid, e.mac);
    IdOfKnown(mid, e.mac);
    assert Sighted(t.addresses, mid.addresses, (d, ip), d in mid.devices && Places(done, mid.devices[d].mac, ip), at);
    if d in after.devices {
      PlacesSnoc(done, e, after.devices[d].mac, ip);
      if d !in mid.devices && Places(done, e.mac, ip) {
        PlacedIsMentioned(done, e.mac, ip);
      }
    }
  }

  lemma {:induction false} AddressesAfterAll(t: Tables, entries: seq<Entry>, at: int)
    requires Keyed(t) && Shows(t, [], at)
    ensures AddressesFollow(t, UpsertedAll(t, entries, at), entries, at)
  {
    if entries == [] {
    } else {
      var front, e := entries[..|entries| - 1], entries[|entries| - 1];
      AddressesAfterAll(t, front, at);
      UpsertAllKeeps(t, front, at);
      RowsAfterAll(t, front, at, Hostname);
      assert front + [e] == entries;
      forall d: int, ip: string
        ensures var after := UpsertedAll(t, entries, at);
                Sighted(t.addresses, after.addresses, (d, ip),
                  d in after.devices && Places(entries, after.devices[d].mac, ip), at)
      {
        UpsertSights(t, UpsertedAll(t, front, at), front, e, at, d, ip);
      }
    }
  }

  /**
   Addresses after a snapshot: every non-empty address listed for a device is last
   seen now, with its first sighting kept or made now; all others stay as they were.
   */
  lemma SnapshotAddresses(t: Tables, entries: seq<Entry>, at: int)
    requires Keyed(t)
    ensures AddressesFollow(t, Recorded(t, entries, at), entries, at)
  {
    AddressesAfterAll(MarkedAbsent(t, at), entries, at);
  }
}
