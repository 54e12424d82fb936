/**
 The device-block request queue (api/internal/store/worker.go and the device
 lifecycle in api/internal/store/devices.go). Each operation is one transaction.
 */
module DeviceControl {
  import opened Prelude

  const LEASE: int := 30 * SECOND

  datatype Device = Device(mac: string, archivedAt: Option<int>, blockedAt: Option<int>)

  datatype Request = Request(device: int, ssid: string, requestedAt: int,
                             startedAt: Option<int>, completedAt: Option<int>, error: Option<string>)

  /** Row ids are serial numbers: the next ones are never handed out twice. */
  datatype Tables = Tables(devices: map<int, Device>, requests: map<int, Request>, nextDevice: int, nextRequest: int)

  const EMPTY := Tables(map[], map[], 1, 1)

  function Incomplete(requests: map<int, Request>): set<int> {
    set id | id in requests && requests[id].completedAt.None?
  }

  /** The rows under the partial unique index of one device; there is at most one. */
  function PendingFor(requests: map<int, Request>, device: int): set<int> {
    set id | id in requests && requests[id].device == device && requests[id].completedAt.None?
  }

  /** 0 when the device is missing or already blocked; a pending request is refreshed rather than doubled. */
  function QueuedId(t: Tables, device: int): int {
    if device !in t.devices || t.devices[device].blockedAt.Some? then 0
    else if PendingFor(t.requests, device) != {} then Least(PendingFor(t.requests, device))
    else t.nextRequest
  }

  function Queued(t: Tables, device: int, ssid: string, now: int): Tables {
    if device !in t.devices || t.devices[device].blockedAt.Some? then t
    else if PendingFor(t.requests, device) != {} then
      var id := Least(PendingFor(t.requests, device));
      t.(requests := t.requests[id := t.requests[id].(requestedAt := now)])
    else
      t.(requests := t.requests[t.nextRequest := Request(device, ssid, now, None, None, None)],
        nextRequest := t.nextRequest + 1)
  }

  /** Incomplete, and never started or started more than a lease ago. */
  predicate Claimable(t: Tables, id: int, now: int) {
    id in t.requests && t.requests[id].completedAt.None?
    && (t.requests[id].startedAt.None? || t.requests[id].startedAt.value < now - LEASE)
  }

  /** `order by requested_at limit 1` fixes the instant, not the row. */
  predicate Oldest(t: Tables, id: int, now: int) {
    && Claimable(t, id, now)
    && forall other | other in t.requests && Claimable(t, other, now) ::
      t.requests[id].requestedAt <= t.requests[other].requestedAt
  }

  function Claimed(t: Tables, id: int, now: int): Tables
    requires id in t.requests
  {
    t.(requests := t.requests[id := t.requests[id].(startedAt := Some(now))])
  }

  /** `error=nullif(message,'')`: an error whose text is empty is stored as no error. */
  function StoredError(error: Option<string>): Option<string> {
    if error == Some("") then None else error
  }

  function Completed(t: Tables, id: int, device: int, error: Option<string>, now: int): Tables {
    var devices := if error.Some? || device !in t.devices then t.devices
                   else t.devices[device := t.devices[device].(blockedAt := Some(now))];
    var requests := if id !in t.requests then t.requests
                    else t.requests[id := t.requests[id].(completedAt := Some(now), error := StoredError(error))];
    t.(devices := devices, requests := requests)
  }

  function Archived(t: Tables, device: int, now: int): Tables {
    if device !in t.devices then t
    else
      var d := t.devices[device];
      t.(devices := t.devices[device := d.(archivedAt := if d.archivedAt.Some? then d.archivedAt else Some(now))])
  }

  function Restored(t: Tables, device: int): Tables {
    if device !in t.devices then t else t.(devices := t.devices[device := t.devices[device].(archivedAt := None)])
  }

  /** Only an archived device can be deleted; its requests go with it. */
  function Deleted(t: Tables, device: int): Tables {
    if device !in t.devices || t.devices[device].archivedAt.None? then t
    else
      var requests := map id | id in t.requests && t.requests[id].device != device :: t.requests[id];
      t.(devices := t.devices - {device}, requests := requests)
  }

  /** A snapshot lists a MAC address: its device is revived, or created with a new id. */
  function Seen(t: Tables, mac: string): Tables {
    var known := set d | d in t.devices && t.devices[d].mac == mac;
    if known != {} then Restored(t, Least(known))
    else t.(devices := t.devices[t.nextDevice := Device(mac, None, None)], nextDevice := t.nextDevice + 1)
  }

  lemma OldestExists(t: Tables, now: int)
    requires exists id :: Claimable(t, id, now)
    ensures exists id :: Oldest(t, id, now)
  {
    var times := set id | id in t.requests && Claimable(t, id, now) :: t.requests[id].requestedAt;
    var some :| Claimable(t, some, now);
    assert t.requests[some].requestedAt in times;
    var first := Least(times);
    var id :| id in t.requests && Claimable(t, id, now) && t.requests[id].requestedAt == first;
    forall other | other in t.requests && Claimable(t, other, now)
      ensures t.requests[id].requestedAt <= t.requests[other].requestedAt
    {
      assert t.requests[other].requestedAt in times;
    }
    assert Oldest(t, id, now);
  }

  /** What the worker is handed with a claim. */
  datatype Control = Control(id: int, device: int, mac: string, ssid: string)

  ghost predicate Pending(t: Tables, id: int) {
    id in t.requests && t.requests[id].completedAt.None?
  }

  /** Rows refer to existing devices and no id is from the future. */
  ghost predicate Keyed(t: Tables) {
    && 1 <= t.nextRequest
    && (forall id | id in t.requests :: 1 <= id < t.nextRequest && t.requests[id].device in t.devices)
    && (forall d | d in t.devices :: d < t.nextDevice)
  }

  /** The partial unique index. */
  ghost predicate UniquePending(t: Tables) {
    forall a, b | Pending(t, a) && Pending(t, b) && t.requests[a].device == t.requests[b].device :: a == b
  }

  /** Device known and not blocked. */
  predicate Open(t: Tables, device: int) {
    device in t.devices && t.devices[device].blockedAt.None?
  }

  /** A row is the same but for the time of the request. */
  predicate Refreshed(before: Request, after: Request) {
    && after.device == before.device && after.ssid == before.ssid && after.startedAt == before.startedAt
    && after.completedAt == before.completedAt && after.error == before.error
  }

  /**
   What queueing promises: nothing for a missing or blocked device, and 0; otherwise
   one pending request of the device as of now, with the network given unless one was
   pending before; no other row changes.
   */
  ghost predicate QueueLaw(t: Tables, t': Tables, device: int, ssid: string, now: int, id: int) {
    && (id == 0 <==> !Open(t, device))
    && (!Open(t, device) ==> t' == t)
    && (Open(t, device) ==>
          && Pending(t', id) && t'.requests[id].device == device && t'.requests[id].requestedAt == now
          && (forall other | Pending(t', other) && t'.requests[other].device == device :: other == id)
          && (id in t.requests ==> Pending(t, id) && Refreshed(t.requests[id], t'.requests[id]))
          && (id !in t.requests ==>
                && t'.requests[id].ssid == ssid && t'.requests[id].startedAt.None? && t'.requests[id].error.None?
                && forall other | Pending(t, other) :: t.requests[other].device != device)
          && t'.devices == t.devices
          && (forall other | other != id :: other in t'.requests <==> other in t.requests)
          && (forall other | other != id && other in t.requests :: t'.requests[other] == t.requests[other]))
  }

  lemma QueueIsLawful(t: Tables, device: int, ssid: string, now: int)
    requires Keyed(t) && UniquePending(t)
    ensures QueueLaw(t, Queued(t, device, ssid, now), device, ssid, now, QueuedId(t, device))
  {
    var pending := PendingFor(t.requests, device);
    forall id ensures id in pending <==> Pending(t, id) && t.requests[id].device == device {}
  }

  lemma QueueKeepsKeys(t: Tables, device: int, ssid: string, now: int)
    requires Keyed(t) && UniquePending(t)
    ensures Keyed(Queued(t, device, ssid, now)) && UniquePending(Queued(t, device, ssid, now))
  {
    QueueIsLawful(t, device, ssid, now);
  }

  class Store {
    var devices: map<int, Device>
    var requests: map<int, Request>
    var nextDevice: int
    var nextRequest: int

    function Contents(): Tables
      reads this
    {
      Tables(devices, requests, nextDevice, nextRequest)
    }

    ghost predicate Valid()
      reads this
    {
      Keyed(Contents()) && UniquePending(Contents())
    }

    constructor ()
      ensures Valid() && Contents() == EMPTY
    {
      devices, requests, nextDevice, nextRequest := map[], map[], 1, 1;
    }

    method QueueDeviceBlock(device: int, ssid: string, now: int) returns (id: int)
      requires Valid()
      modifies this
      ensures Valid()
      ensures QueueLaw(old(Contents()), Contents(), device, ssid, now, id)
      ensures id == QueuedId(old(Contents()), device)
      ensures Contents() == Queued(old(Contents()), device, ssid, now)
    {
      QueueIsLawful(Contents(), device, ssid, now);
      QueueKeepsKeys(Contents(), device, ssid, now);
      if device !in devices || devices[device].blockedAt.Some? {
        return 0;
      }
      var pending := PendingFor(requests, device);
      if pending != {} {
        id := Least(pending);
        requests := requests[id := requests[id].(requestedAt := now)];
      } else {
        id := nextRequest;
        requests := requests[id := Request(device, ssid, now, None, None, None)];
        nextRequest := nextRequest + 1;
      }
    }

    /** Claims the request asked for longest ago that no lease covers, and hands out its device and network. */
    method PendingDeviceControl(now: int) returns (claim: Option<Control>)
      requires Valid()
      modifies this
      ensures Valid()
      ensures claim.None? <==> !exists id :: Claimable(old(Contents()), id, now)
      ensures claim.None? ==> Contents() == old(Contents())
      ensures claim.Some? ==>
                var id := claim.value.id;
                && Oldest(old(Contents()), id, now) && Contents() == Claimed(old(Contents()), id, now)
                && requests[id] == old(requests)[id].(startedAt := Some(now))
                && claim.value.device == requests[id].device && claim.value.ssid == requests[id].ssid
                && claim.value.device in devices && claim.value.mac == devices[claim.value.device].mac
    {
      var t := Contents();
      if exists id | id in requests :: Claimable(t, id, now) {
        OldestExists(t, now);
        var id :| id in requests && Oldest(t, id, now);
        requests := requests[id := requests[id].(startedAt := Some(now))];
        claim := Some(Control(id, requests[id].device, devices[requests[id].device].mac, requests[id].ssid));
      } else {
        claim := None;
      }
    }

    method CompleteDeviceControl(id: int, device: int, error: Option<string>, now: int)
      requires Valid()
      modifies this
      ensures Valid()
      ensures Contents() == Completed(old(Contents()), id, device, error, now)
      ensures requests.Keys == old(requests).Keys && requests - {id} == old(requests) - {id}
      ensures id in requests ==>
                var before, after := old(requests)[id], requests[id];
                after == before.(completedAt := Some(now), error := if error == Some("") then None else error)
      ensures devices.Keys == old(devices).Keys && devices - {device} == old(devices) - {device}
      ensures device in devices ==>
                devices[device]
                  == old(devices)[device].(blockedAt := if error.None? then Some(now)
                    else old(devices)[device].blockedAt)
    {
      var message := "";
      if error.Some? {
        message := error.value;
      } else if device in devices {
        devices := devices[device := devices[device].(blockedAt := Some(now))];
      }
      if id in requests {
        requests := requests[id :=
          requests[id].(completedAt := Some(now), error := if message == "" then None else Some(message))];
      }
    }

    method ArchiveDevice(device: int, now: int) returns (found: bool)
      requires Valid()
      modifies this
      ensures Valid()
      ensures found <==> device in old(devices)
      ensures Contents() == Archived(old(Contents()), device, now)
      ensures found ==>
                var before := old(devices)[device].archivedAt;
                device in devices && devices[device].archivedAt == if before.Some? then before else Some(now)
    {
      found := device in devices;
      if found {
        var archivedAt := devices[device].archivedAt;
        devices := devices[device :=
          devices[device].(archivedAt := if archivedAt.Some? then archivedAt else Some(now))];
      }
    }

    method RestoreDevice(device: int) returns (found: bool)
      requires Valid()
      modifies this
      ensures Valid()
      ensures found <==> device in old(devices)
      ensures Contents() == Restored(old(Contents()), device)
      ensures found ==> device in devices && devices[device].archivedAt == None
    {
      found := device in devices;
      if found {
        devices := devices[device := devices[device].(archivedAt := None)];
      }
    }

    /** Deletes an archived device with its requests. */
    method DeleteDevice(device: int) returns (deleted: bool)
      requires Valid()
      modifies this
      ensures Valid()
      ensures deleted <==> device in old(devices) && old(devices)[device].archivedAt.Some?
      ensures Contents() == Deleted(old(Contents()), device)
      ensures devices == if deleted then old(devices) - {device} else old(devices)
      ensures forall id :: id in requests <==> id in old(requests) && !(deleted && old(requests)[id].device == device)
    {
      deleted := device in devices && devices[device].archivedAt.Some?;
      if deleted {
        devices := devices - {device};
        requests := map id | id in requests && requests[id].device != device :: requests[id];
      }
    }
  }
}
