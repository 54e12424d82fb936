/**
 One worker and any number of dashboard users around the request queue, under
 every interleaving (api/internal/collector/collector.go, `runDeviceControl`).
 */
module BlockProtocol {
  import opened Prelude
  import opened DeviceControl

  /** Where the single worker is between claiming a request and completing it. */
  datatype Worker =
    | Idle
    | Holding(id: int, device: int, mac: string, ssid: string)
    | Answered(id: int, device: int, mac: string, ssid: string, error: Option<string>)

  datatype Call = Call(id: int, mac: string, ssid: string, ok: bool)

  datatype Claim = Claim(id: int, at: int)

  /** `calls` and `claims` are the full history of router calls and leases. */
  datatype World = World(t: Tables, now: int, worker: Worker, calls: seq<Call>, claims: seq<Claim>)

  /** `Crash` also stands for a completion the database refused; a restarted worker starts idle. */
  datatype Event =
    | Queue(device: int, ssid: string)
    | Take(id: int)
    | CallRouter(error: Option<string>)
    | Complete
    | Crash
    | Archive(device: int)
    | Restore(device: int)
    | Delete(device: int)
    | See(mac: string)
    | Tick(elapsed: nat)

  const START := World(EMPTY, 0, Idle, [], [])

  /** An event that is not enabled leaves the world alone. */
  function Next(w: World, e: Event): World {
    match e
    case Queue(device, ssid) => w.(t := Queued(w.t, device, ssid, w.now))
    case Take(id) =>
      if w.worker.Idle? && Oldest(w.t, id, w.now) && w.t.requests[id].device in w.t.devices then Taken(w, id) else w
    case CallRouter(error) =>
      if w.worker.Holding?
      then w.(worker := Answered(w.worker.id, w.worker.device, w.worker.mac, w.worker.ssid, error),
              calls := w.calls + [Call(w.worker.id, w.worker.mac, w.worker.ssid, error.None?)])
      else w
    case Complete =>
      if w.worker.Answered?
      then w.(t := Completed(w.t, w.worker.id, w.worker.device, w.worker.error, w.now), worker := Idle)
      else w
    case Crash => w.(worker := Idle)
    case Archive(device) => w.(t := Archived(w.t, device, w.now))
    case Restore(device) => w.(t := Restored(w.t, device))
    case Delete(device) => w.(t := Deleted(w.t, device))
    case See(mac) => w.(t := Seen(w.t, mac))
    case Tick(elapsed) => w.(now := w.now + elapsed)
  }

  function Taken(w: World, id: int): World
    requires id in w.t.requests && w.t.requests[id].device in w.t.devices
  {
    var device := w.t.requests[id].device;
    w.(t := Claimed(w.t, id, w.now), worker := Holding(id, device, w.t.devices[device].mac, w.t.requests[id].ssid),
      claims := w.claims + [Claim(id, w.now)])
  }

  function Run(w: World, events: seq<Event>): World {
    if events == [] then w else Next(Run(w, events[..|events| - 1]), events[|events| - 1])
  }

  /** Completed and stored without an error. */
  ghost predicate Succeeded(t: Tables, id: int) {
    id in t.requests && t.requests[id].completedAt.Some? && t.requests[id].error.None?
  }

  /** Each device has at most one incomplete request, and a blocked device has none. */
  ghost predicate OnePending(t: Tables) {
    && UniquePending(t)
    && (forall id | Pending(t, id) && t.requests[id].device in t.devices ::
          t.devices[t.requests[id].device].blockedAt.None?)
  }

  ghost predicate Called(calls: seq<Call>, id: int, mac: string) {
    exists c | c in calls :: c.id == id && c.mac == mac && c.ok
  }

  ghost predicate Justifies(w: World, id: int, device: int) {
    Succeeded(w.t, id) && w.t.requests[id].device == device && device in w.t.devices
    && Called(w.calls, id, w.t.devices[device].mac)
  }

  /** A blocked device has a request that completed without error after a successful router call for it. */
  ghost predicate BlocksJustified(w: World) {
    forall d | d in w.t.devices && w.t.devices[d].blockedAt.Some? :: exists id :: Justifies(w, id, d)
  }

  /** A request that completed without error has blocked its device, after a successful router call for it. */
  ghost predicate SuccessesBlock(w: World) {
    forall id | Succeeded(w.t, id) && w.t.requests[id].device in w.t.devices ::
      w.t.devices[w.t.requests[id].device].blockedAt.Some?
        && Called(w.calls, id, w.t.devices[w.t.requests[id].device].mac)
  }

  /** What the worker holds is still pending, unless the device and the request were deleted together. */
  ghost predicate WorkerKnows(w: World) {
    w.worker.Idle? ||
    (var id, device := w.worker.id, w.worker.device;
     && id < w.t.nextRequest && device < w.t.nextDevice
     && (id in w.t.requests <==> device in w.t.devices)
     && (id in w.t.requests ==>
           Pending(w.t, id) && w.t.requests[id].device == device && w.t.devices[device].mac == w.worker.mac)
     && (w.worker.Answered? && w.worker.error.None? ==> Called(w.calls, id, w.worker.mac)))
  }

  /** Every lease lies in the past and is reflected in its row. */
  ghost predicate ClaimsRecorded(w: World) {
    forall c | c in w.claims ::
      && c.at <= w.now && c.id < w.t.nextRequest
      && (c.id in w.t.requests
         ==> w.t.requests[c.id].startedAt.Some? && c.at <= w.t.requests[c.id].startedAt.value <= w.now)
  }

  /** Two leases of one request are more than the lease time apart. */
  ghost predicate LeasesApart(claims: seq<Claim>) {
    forall i, j | 0 <= i < j < |claims| && claims[i].id == claims[j].id :: claims[i].at + 30 * SECOND < claims[j].at
  }

  ghost predicate StartedInPast(w: World) {
    forall id | id in w.t.requests && w.t.requests[id].startedAt.Some? :: w.t.requests[id].startedAt.value <= w.now
  }

  ghost predicate Inv(w: World) {
    && Keyed(w.t) && OnePending(w.t) && BlocksJustified(w) && WorkerKnows(w)
    && ClaimsRecorded(w) && LeasesApart(w.claims) && StartedInPast(w)
  }

  /** The error texts the adapter reports are not empty. */
  ghost predicate Worded(w: World) {
    w.worker.Answered? ==> w.worker.error != Some("")
  }

  /** Rows keep all that the invariant reads; new rows are fresh, unblocked and unstarted. */
  ghost predicate Gentle(t: Tables, t': Tables) {
    && t.nextDevice <= t'.nextDevice && t.nextRequest <= t'.nextRequest
    && (forall d | d in t.devices ::
          d in t'.devices && t'.devices[d].mac == t.devices[d].mac && t'.devices[d].blockedAt == t.devices[d].blockedAt)
    && (forall d | d in t'.devices && d !in t.devices :: t.nextDevice <= d && t'.devices[d].blockedAt.None?)
    && (forall id | id in t.requests :: id in t'.requests && SameRequest(t.requests[id], t'.requests[id]))
    && (forall id | id in t'.requests && id !in t.requests ::
          t.nextRequest <= id && t'.requests[id].completedAt.None? && t'.requests[id].startedAt.None?)
  }

  predicate SameRequest(a: Request, b: Request) {
    a.device == b.device && a.startedAt == b.startedAt && a.completedAt == b.completedAt && a.error == b.error
  }

  lemma QueueIsGentle(t: Tables, device: int, ssid: string, now: int)
    requires Keyed(t) && OnePending(t)
    ensures var t' := Queued(t, device, ssid, now); Gentle(t, t') && Keyed(t') && OnePending(t')
  {
    var pending := PendingFor(t.requests, device);
    if device in t.devices && t.devices[device].blockedAt.None? {
      if pending == {} {
        forall id ensures !(Pending(t, id) && t.requests[id].device == device) {
          assert id !in pending;
        }
        FreshRequestIsGentle(t, device, ssid, now);
      } else {
        RefreshIsGentle(t, Least(pending), now);
      }
    }
  }

  lemma FreshRequestIsGentle(t: Tables, device: int, ssid: string, now: int)
    requires Keyed(t) && OnePending(t) && device in t.devices && t.devices[device].blockedAt.None?
    requires forall id :: !(Pending(t, id) && t.requests[id].device == device)
    ensures var t' :=
            t.(requests := t.requests[t.nextRequest := Request(device, ssid, now, None, None, None)],
              nextRequest := t.nextRequest + 1);
            Gentle(t, t') && Keyed(t') && OnePending(t')
  {}

  lemma RefreshIsGentle(t: Tables, id: int, now: int)
    requires Keyed(t) && OnePending(t) && Pending(t, id)
    ensures var t' := t.(requests := t.requests[id := t.requests[id].(requestedAt := now)]);
            Gentle(t, t') && Keyed(t') && OnePending(t')
  {}

  lemma SeenIsGentle(t: Tables, mac: string)
    requires Keyed(t) && OnePending(t)
    ensures var t' := Seen(t, mac); Gentle(t, t') && Keyed(t') && OnePending(t')
  {}

  lemma ArchivedIsGentle(t: Tables, device: int, now: int)
    requires Keyed(t) && OnePending(t)
    ensures var t' := Archived(t, device, now); Gentle(t, t') && Keyed(t') && OnePending(t')
  {}

  lemma RestoredIsGentle(t: Tables, device: int)
    requires Keyed(t) && OnePending(t)
    ensures var t' := Restored(t, device); Gentle(t, t') && Keyed(t') && OnePending(t')
  {}

  lemma GentleKeepsBlocks(w: World, t': Tables)
    requires Keyed(w.t) && BlocksJustified(w) && Gentle(w.t, t')
    ensures BlocksJustified(w.(t := t'))
    ensures SuccessesBlock(w) ==> SuccessesBlock(w.(t := t'))
  {
    forall d | d in t'.devices && t'.devices[d].blockedAt.Some? ensures exists id :: Justifies(w.(t := t'), id, d) {
      var id :| Justifies(w, id, d);
      assert Justifies(w.(t := t'), id, d);
    }
  }

  lemma GentleKeepsRest(w: World, t': Tables)
    requires Keyed(w.t) && WorkerKnows(w) && ClaimsRecorded(w) && StartedInPast(w) && Gentle(w.t, t')
    ensures WorkerKnows(w.(t := t')) && ClaimsRecorded(w.(t := t')) && StartedInPast(w.(t := t'))
  {}

  lemma GentleStep(w: World, t': Tables)
    requires Inv(w) && Gentle(w.t, t') && Keyed(t') && OnePending(t')
    ensures Inv(w.(t := t'))
    ensures SuccessesBlock(w) ==> SuccessesBlock(w.(t := t'))
  {
    GentleKeepsBlocks(w, t');
    GentleKeepsRest(w, t');
  }

  /** A new lease comes more than a lease time after every earlier one of its request. */
  lemma TakeStep(w: World, id: int)
    requires Inv(w) && Oldest(w.t, id, w.now) && w.t.requests[id].device in w.t.devices
    ensures Inv(Taken(w, id))
    ensures SuccessesBlock(w) ==> SuccessesBlock(Taken(w, id))
  {
    TakeBlocks(w, id);
    TakeLeases(w, id);
  }

  lemma TakeBlocks(w: World, id: int)
    requires Inv(w) && Pending(w.t, id) && w.t.requests[id].device in w.t.devices
    ensures BlocksJustified(Taken(w, id)) && OnePending(Taken(w, id).t) && WorkerKnows(Taken(w, id))
            && Keyed(Taken(w, id).t)
    ensures SuccessesBlock(w) ==> SuccessesBlock(Taken(w, id))
  {
    var w' := Taken(w, id);
    forall d | d in w'.t.devices && w'.t.devices[d].blockedAt.Some? ensures exists r :: Justifies(w', r, d) {
      var r :| Justifies(w, r, d);
      assert Justifies(w', r, d);
    }
  }

  lemma TakeLeases(w: World, id: int)
    requires Keyed(w.t) && ClaimsRecorded(w) && LeasesApart(w.claims) && Claimable(w.t, id, w.now)
             && w.t.requests[id].device in w.t.devices
    ensures ClaimsRecorded(Taken(w, id)) && LeasesApart(Taken(w, id).claims)
  {
    var claims := Taken(w, id).claims;
    forall i, j | 0 <= i < j < |claims| && claims[i].id == claims[j].id
      ensures claims[i].at + 30 * SECOND < claims[j].at {
      if j == |w.claims| {
        assert claims[i] in w.claims;
      }
    }
  }

  lemma CompleteStep(w: World)
    requires Inv(w) && w.worker.Answered?
    ensures Inv(Next(w, Complete))
    ensures SuccessesBlock(w) && Worded(w) ==> SuccessesBlock(Next(w, Complete))
  {
    var w' := Next(w, Complete);
    var id, device := w.worker.id, w.worker.device;
    forall d | d in w'.t.devices && w'.t.devices[d].blockedAt.Some? ensures exists r :: Justifies(w', r, d) {
      if d == device && w.worker.error.None? {
        assert Justifies(w', id, d);
      } else {
        var r :| Justifies(w, r, d);
        assert Justifies(w', r, d);
      }
    }
    CompleteKeepsPending(w);
  }

  lemma CompleteKeepsPending(w: World)
    requires Keyed(w.t) && OnePending(w.t) && WorkerKnows(w) && w.worker.Answered?
    ensures Keyed(Next(w, Complete).t) && OnePending(Next(w, Complete).t)
  {}

  lemma DeleteStep(w: World, device: int)
    requires Inv(w)
    ensures Inv(Next(w, Delete(device)))
    ensures SuccessesBlock(w) ==> SuccessesBlock(Next(w, Delete(device)))
  {
    var w' := Next(w, Delete(device));
    forall d | d in w'.t.devices && w'.t.devices[d].blockedAt.Some? ensures exists r :: Justifies(w', r, d) {
      var r :| Justifies(w, r, d);
      assert Justifies(w', r, d);
    }
  }

  lemma CallStep(w: World, error: Option<string>)
    requires Inv(w) && w.worker.Holding?
    ensures Inv(Next(w, CallRouter(error)))
    ensures SuccessesBlock(w) ==> SuccessesBlock(Next(w, CallRouter(error)))
  {
    var w' := Next(w, CallRouter(error));
    var call := Call(w.worker.id, w.worker.mac, w.worker.ssid, error.None?);
    assert call in w'.calls && forall c | c in w.calls :: c in w'.calls;
    forall d | d in w'.t.devices && w'.t.devices[d].blockedAt.Some? ensures exists r :: Justifies(w', r, d) {
      var r :| Justifies(w, r, d);
      assert Justifies(w', r, d);
    }
  }

  lemma QuietStep(w: World, e: Event)
    requires Inv(w) && (e.Crash? || e.Tick?)
    ensures Inv(Next(w, e))
    ensures SuccessesBlock(w) ==> SuccessesBlock(Next(w, e))
  {
    var w' := Next(w, e);
    forall d | d in w'.t.devices && w'.t.devices[d].blockedAt.Some? ensures exists r :: Justifies(w', r, d) {
      var r :| Justifies(w, r, d);
      assert Justifies(w', r, d);
    }
  }

  lemma InvStep(w: World, e: Event)
    requires Inv(w)
    ensures Inv(Next(w, e))
    ensures SuccessesBlock(w) && Worded(w) ==> SuccessesBlock(Next(w, e))
  {
    match e
    case Queue(device, ssid) =>
      QueueIsGentle(w.t, device, ssid, w.now);
      GentleStep(w, Queued(w.t, device, ssid, w.now));
    case See(mac) =>
      SeenIsGentle(w.t, mac);
      GentleStep(w, Seen(w.t, mac));
    case Archive(device) =>
      ArchivedIsGentle(w.t, device, w.now);
      GentleStep(w, Archived(w.t, device, w.now));
    case Restore(device) =>
      RestoredIsGentle(w.t, device);
      GentleStep(w, Restored(w.t, device));
    case Take(id) => if Next(w, e) != w { TakeStep(w, id); }
    case CallRouter(error) => if w.worker.Holding? { CallStep(w, error); }
    case Complete => if w.worker.Answered? { CompleteStep(w); }
    case Crash => QuietStep(w, e);
    case Delete(device) => DeleteStep(w, device);
    case Tick(elapsed) => QuietStep(w, e);
  }

  predicate NonEmptyErrors(events: seq<Event>) {
    forall e | e in events && e.CallRouter? :: e.error != Some("")
  }

  lemma {:induction false} InvRun(events: seq<Event>)
    ensures Inv(Run(START, events))
    ensures NonEmptyErrors(events) ==> SuccessesBlock(Run(START, events)) && Worded(Run(START, events))
  {
    if events == [] {
    } else {
      var front, e := events[..|events| - 1], events[|events| - 1];
      InvRun(front);
      InvStep(Run(START, front), e);
      assert e in events;
    }
  }

  ghost predicate BlockedBySuccess(w: World, d: int) {
    d in w.t.devices ==>
      (w.t.devices[d].blockedAt.Some? <==> exists id :: Succeeded(w.t, id) && w.t.requests[id].device == d)
  }

  /**
   Safety over every run of one worker: one pending request per device, none for
   a blocked device, every block preceded by a successful router call for it, and
   leases of one request more than 30 seconds apart. While error texts are not
   empty, a device is blocked exactly when one of its requests completed without
   an error.
   */
  lemma BlockingIsSafe(events: seq<Event>)
    ensures var w := Run(START, events);
            && OnePending(w.t)
            && BlocksJustified(w)
            && LeasesApart(w.claims)
            && (NonEmptyErrors(events) ==> forall d :: BlockedBySuccess(w, d))
  {
    InvRun(events);
    var w := Run(START, events);
    forall d | NonEmptyErrors(events) && d in w.t.devices
      ensures w.t.devices[d].blockedAt.Some? <==> exists id :: Succeeded(w.t, id) && w.t.requests[id].device == d
    {
      if w.t.devices[d].blockedAt.Some? {
        var id :| Justifies(w, id, d);
      }
    }
  }

  /** `nullif` on the message: exactly an empty error text makes a failed block look like a successful one. */
  lemma CompletionHonestIff(w: World)
    requires Inv(w) && SuccessesBlock(w) && w.worker.Answered? && w.worker.id in w.t.requests
    ensures SuccessesBlock(Next(w, Complete)) <==> w.worker.error != Some("")
  {
    if w.worker.error == Some("") {
      assert Pending(w.t, w.worker.id);
      assert Succeeded(Next(w, Complete).t, w.worker.id);
    } else {
      CompleteStep(w);
    }
  }

  const SILENT_FAILURE :=
      [See("aa:bb:cc:dd:ee:ff")] + [Queue(1, "home")] + [Take(1)] + [CallRouter(Some(""))] + [Complete]

  /** A failed block whose error has no text: the request reads as a success and the device is not blocked. */
  lemma SilentFailure()
    ensures !BlockedBySuccess(Run(START, SILENT_FAILURE), 1)
  {
    var seen := [See("aa:bb:cc:dd:ee:ff")];
    var queued := seen + [Queue(1, "home")];
    var taken := queued + [Take(1)];
    var answered := taken + [CallRouter(Some(""))];
    RunSnoc(START, [], See("aa:bb:cc:dd:ee:ff"));
    assert [] + seen == seen;
    RunSnoc(START, seen, Queue(1, "home"));
    RunSnoc(START, queued, Take(1));
    RunSnoc(START, taken, CallRouter(Some("")));
    RunSnoc(START, answered, Complete);
    var w := Run(START, answered);
    SilentlyAnswered();
    assert Succeeded(Next(w, Complete).t, 1) && Next(w, Complete).t.devices[1].blockedAt.None?;
  }

  lemma SilentlyAnswered()
    ensures var w :=
            Next(Next(Next(Next(START, See("aa:bb:cc:dd:ee:ff")), Queue(1, "home")), Take(1)), CallRouter(Some("")));
            && w.worker == Answered(1, 1, "aa:bb:cc:dd:ee:ff", "home", Some("")) && 1 in w.t.devices
               && w.t.devices[1].blockedAt.None?
            && 1 in w.t.requests && w.t.requests[1].device == 1
  {
    var w1 := Next(START, See("aa:bb:cc:dd:ee:ff"));
    assert w1.t.devices == map[1 := Device("aa:bb:cc:dd:ee:ff", None, None)] && w1.t.requests == map[];
    var w2 := Next(w1, Queue(1, "home"));
    assert w2.t.requests == map[1 := Request(1, "home", 0, None, None, None)];
    assert Oldest(w2.t, 1, w2.now);
  }

  /** The network named when a request was queued, if it was. */
  function QueuedWith(events: seq<Event>, id: int): Option<string> {
    if events == [] then None
    else
      var front, e := events[..|events| - 1], events[|events| - 1];
      var t := Run(START, front).t;
      if e.Queue? && Open(t, e.device) && PendingFor(t.requests, e.device) == {} && t.nextRequest == id
        then Some(e.ssid)
      else QueuedWith(front, id)
  }

  /**
   Every request, what the worker holds of it, and every router call made for it name the
   network it was queued with.
   */
  ghost predicate NetworksKept(events: seq<Event>) {
    var w := Run(START, events);
    && (forall id :: QueuedWith(events, id).Some? ==> id < w.t.nextRequest)
    && (forall id | id in w.t.requests :: QueuedWith(events, id) == Some(w.t.requests[id].ssid))
    && (!w.worker.Idle? ==> QueuedWith(events, w.worker.id) == Some(w.worker.ssid))
    && (forall c | c in w.calls :: QueuedWith(events, c.id) == Some(c.ssid))
  }

  /** A request keeps its network for good; only a fresh id brings a new one. */
  lemma NetworkStep(w: World, e: Event, id: int)
    requires Keyed(w.t) && UniquePending(w.t)
    ensures var w' := Next(w, e);
            && w.t.nextRequest <= w'.t.nextRequest
            && (id in w'.t.requests && id in w.t.requests ==> w'.t.requests[id].ssid == w.t.requests[id].ssid)
            && (id in w'.t.requests && id !in w.t.requests ==>
                  && e.Queue? && Open(w.t, e.device) && PendingFor(w.t.requests, e.device) == {}
                  && id == w.t.nextRequest && w'.t.requests[id].ssid == e.ssid && id < w'.t.nextRequest)
  {}

  lemma WorkerNetworkStep(w: World, e: Event)
    ensures var w' := Next(w, e);
            && (!w'.worker.Idle? ==>
                  || (!w.worker.Idle? && w'.worker.id == w.worker.id && w'.worker.ssid == w.worker.ssid)
                  || (w'.worker.id in w.t.requests && w'.worker.ssid == w.t.requests[w'.worker.id].ssid))
            && (forall c | c in w'.calls ::
                  c in w.calls || (!w.worker.Idle? && c.id == w.worker.id && c.ssid == w.worker.ssid))
  {}

  lemma QueuedWithSnoc(front: seq<Event>, e: Event, id: int)
    requires NetworksKept(front) && Keyed(Run(START, front).t)
    ensures id < Run(START, front).t.nextRequest ==> QueuedWith(front + [e], id) == QueuedWith(front, id)
    ensures QueuedWith(front + [e], id).Some? ==>
              || id < Run(START, front).t.nextRequest
              || (e.Queue? && Open(Run(START, front).t, e.device)
                  && PendingFor(Run(START, front).t.requests, e.device) == {} && id == Run(START, front).t.nextRequest)
  {
    assert (front + [e])[..|front|] == front;
    assert QueuedWith(front, id).Some? ==> id < Run(START, front).t.nextRequest;
  }

  lemma NetworksStep(front: seq<Event>, e: Event)
    requires NetworksKept(front) && Keyed(Run(START, front).t) && UniquePending(Run(START, front).t)
    ensures NetworksKept(front + [e])
  {
    var w, events := Run(START, front), front + [e];
    assert events[..|front|] == front;
    WorkerNetworkStep(w, e);
    forall id ensures QueuedWith(events, id).Some? ==> id < Next(w, e).t.nextRequest
      ensures id in Next(w, e).t.requests ==> QueuedWith(events, id) == Some(Next(w, e).t.requests[id].ssid)
      ensures QueuedWith(front, id).Some? ==> QueuedWith(events, id) == QueuedWith(front, id)
    {
      NetworkStep(w, e, id);
      QueuedWithSnoc(front, e, id);
    }
  }

  /** Over every run, the router is only ever called with the network its request was queued with. */
  lemma {:induction false} CallsNameTheNetwork(events: seq<Event>)
    ensures NetworksKept(events)
  {
    if events == [] {
    } else {
      var front := events[..|events| - 1];
      CallsNameTheNetwork(front);
      InvRun(front);
      NetworksStep(front, events[|events| - 1]);
      assert events == front + [events[|events| - 1]];
    }
  }

  lemma RunSnoc(w: World, events: seq<Event>, e: Event)
    ensures Run(w, events + [e]) == Next(Run(w, events), e)
  {
    assert (events + [e])[..|events|] == events;
  }

  lemma {:induction false} RunAppend(w: World, a: seq<Event>, b: seq<Event>)
    ensures Run(w, a + b) == Run(Run(w, a), b)
  {
    if b == [] {
      assert a + b == a;
    } else {
      assert (a + b)[..|a + b| - 1] == a + b[..|b| - 1];
      RunAppend(w, a, b[..|b| - 1]);
    }
  }

  /** What a request looks like, and whether its device is blocked, after one was served. */
  ghost predicate Served(w: World, w': World, id: int) {
    && w'.worker.Idle? && w'.now == w.now
    && Incomplete(w'.t.requests) == Incomplete(w.t.requests) - {id}
    && (forall r | r in w.t.requests :: r in w'.t.requests && w'.t.requests[r].device == w.t.requests[r].device)
    && (forall r | Pending(w.t, r) && r != id :: w'.t.requests[r] == w.t.requests[r])
    && (forall d | d in w.t.devices ::
       d in w'.t.devices && (w.t.devices[d].blockedAt.Some? ==> w'.t.devices[d].blockedAt.Some?))
    && (id in w.t.requests && w.t.requests[id].device in w'.t.devices
       ==> w'.t.devices[w.t.requests[id].device].blockedAt.Some?)
  }

  function ServeEvents(id: int): seq<Event> {
    [Take(id)] + [CallRouter(None)] + [Complete]
  }

  lemma RunServe(w: World, id: int)
    ensures Run(w, ServeEvents(id)) == Next(Next(Next(w, Take(id)), CallRouter(None)), Complete)
  {
    RunSnoc(w, [], Take(id));
    assert [] + [Take(id)] == [Take(id)];
    RunSnoc(w, [Take(id)], CallRouter(None));
    RunSnoc(w, [Take(id)] + [CallRouter(None)], Complete);
  }

  lemma Serve(w: World, id: int)
    requires Inv(w) && w.worker.Idle? && Oldest(w.t, id, w.now)
    ensures Inv(Run(w, ServeEvents(id))) && Served(w, Run(w, ServeEvents(id)), id)
  {
    RunServe(w, id);
    var a := Next(w, Take(id));
    var b := Next(a, CallRouter(None));
    InvStep(w, Take(id));
    InvStep(a, CallRouter(None));
    InvStep(b, Complete);
    ServeEffect(w, id);
  }

  lemma ServeEffect(w: World, id: int)
    requires Keyed(w.t) && w.worker.Idle? && Oldest(w.t, id, w.now)
    ensures Served(w, Next(Next(Next(w, Take(id)), CallRouter(None)), Complete), id)
  {
    var c := Next(Next(Next(w, Take(id)), CallRouter(None)), Complete);
    assert c.t.requests.Keys == w.t.requests.Keys;
    assert c.t.devices.Keys == w.t.devices.Keys;
  }

  ghost predicate AllClaimable(w: World) {
    forall id | Pending(w.t, id) :: Claimable(w.t, id, w.now)
  }

  ghost predicate Cleared(w: World, w': World) {
    && Incomplete(w'.t.requests) == {}
    && (forall d | d in w.t.devices && w.t.devices[d].blockedAt.Some? ::
       d in w'.t.devices && w'.t.devices[d].blockedAt.Some?)
    && (forall id | Pending(w.t, id) ::
          w.t.requests[id].device in w'.t.devices && w'.t.devices[w.t.requests[id].device].blockedAt.Some?)
  }

  lemma {:induction false} Drain(w: World) returns (events: seq<Event>)
    requires Inv(w) && w.worker.Idle? && AllClaimable(w)
    ensures Cleared(w, Run(w, events))
    decreases |Incomplete(w.t.requests)|
  {
    if Incomplete(w.t.requests) == {} {
      events := [];
      forall id ensures !Pending(w.t, id) { assert id !in Incomplete(w.t.requests); }
    } else {
      var some := Least(Incomplete(w.t.requests));
      assert Pending(w.t, some);
      OldestExists(w.t, w.now);
      var id :| Oldest(w.t, id, w.now);
      assert id in Incomplete(w.t.requests);
      Serve(w, id);
      var w' := Run(w, ServeEvents(id));
      forall r | Pending(w'.t, r) ensures Claimable(w'.t, r, w'.now) {
        assert r in Incomplete(w'.t.requests);
        assert Pending(w.t, r);
      }
      var rest := Drain(w');
      events := ServeEvents(id) + rest;
      RunAppend(w, ServeEvents(id), rest);
      ClearedAfterServed(w, w', Run(w', rest), id);
    }
  }

  lemma ClearedAfterServed(w: World, w': World, w'': World, id: int)
    requires Keyed(w.t) && Pending(w.t, id) && Served(w, w', id) && Cleared(w', w'')
    ensures Cleared(w, w'')
  {
    forall r | Pending(w.t, r)
      ensures w.t.requests[r].device in w''.t.devices && w''.t.devices[w.t.requests[r].device].blockedAt.Some?
    {
      if r != id { assert Pending(w'.t, r); }
    }
  }

  /** No crash strands a request: from any reachable world the queue can still be served to the end. */
  lemma QueueCanAlwaysDrain(events: seq<Event>) returns (more: seq<Event>)
    ensures Cleared(Run(START, events), Run(START, events + more))
  {
    InvRun(events);
    var w := Run(START, events);
    var restart := [Crash] + [Tick(30 * SECOND + 1)];
    InvStep(w, Crash);
    InvStep(Next(w, Crash), Tick(30 * SECOND + 1));
    RunSnoc(w, [], Crash);
    assert [] + [Crash] == [Crash];
    RunSnoc(w, [Crash], Tick(30 * SECOND + 1));
    var rest := Drain(Run(w, restart));
    more := restart + rest;
    RunAppend(w, restart, rest);
    RunAppend(START, events, more);
  }
}
