/**
 Archiving, restoring and deleting devices while snapshots and block requests go on
 (api/internal/store/devices.go).
 */
module Lifecycle {
  import opened DeviceControl
  import opened BlockProtocol

  ghost predicate DistinctMacs(t: Tables) {
    && (forall d | d in t.devices :: d < t.nextDevice)
    && (forall a, b | a in t.devices && b in t.devices && t.devices[a].mac == t.devices[b].mac :: a == b)
  }

  predicate Lists(t: Tables, mac: string, d: int) {
    d in t.devices && t.devices[d].mac == mac
  }

  /** Device `d` was archived after it was last restored or listed by a snapshot. */
  predicate LastArchived(events: seq<Event>, d: int) {
    if events == [] then false
    else
      var front := events[..|events| - 1];
      var t := Run(START, front).t;
      match events[|events| - 1]
      case Archive(device) => (device == d && d in t.devices) || LastArchived(front, d)
      case Restore(device) => device != d && LastArchived(front, d)
      case See(mac) => !Lists(t, mac, d) && LastArchived(front, d)
      case _ => LastArchived(front, d)
  }

  predicate ArchivedNow(t: Tables, d: int) {
    d in t.devices && t.devices[d].archivedAt.Some?
  }

  predicate Keeps(t: Tables, t': Tables, d: int) {
    d in t.devices ==> d in t'.devices && t'.devices[d].mac == t.devices[d].mac
  }

  lemma SeenTarget(t: Tables, mac: string, d: int)
    requires DistinctMacs(t)
    ensures var t' := Seen(t, mac);
            && DistinctMacs(t') && Keeps(t, t', d) && t.nextDevice <= t'.nextDevice
            && (ArchivedNow(t', d) <==> ArchivedNow(t, d) && !Lists(t, mac, d))
            && (d in t'.devices && d !in t.devices ==> d == t.nextDevice && t'.devices[d].mac == mac)
  {
    var known := set x | x in t.devices && t.devices[x].mac == mac;
    forall x ensures Lists(t, mac, x) <==> x in known {}
    var t' := Seen(t, mac);
    if known == {} {
      forall x | x in t.devices ensures t.devices[x].mac != mac { assert Lists(t, mac, x) ==> x in known; }
    } else {
      assert t'.devices.Keys == t.devices.Keys;
      assert forall x | x in t.devices :: t'.devices[x].mac == t.devices[x].mac;
    }
  }

  lemma OtherStep(w: World, e: Event, d: int)
    requires DistinctMacs(w.t) && !e.See?
    ensures var t' := Next(w, e).t;
            && DistinctMacs(t') && t'.nextDevice == w.t.nextDevice
            && (e.Archive? ==> ArchivedNow(t', d) == (ArchivedNow(w.t, d) || (e.device == d && d in w.t.devices)))
            && (e.Restore? ==> ArchivedNow(t', d) == (ArchivedNow(w.t, d) && e.device != d))
            && (!e.Archive? && !e.Restore? && d in t'.devices ==> ArchivedNow(t', d) == ArchivedNow(w.t, d))
            && (e.Delete? && e.device == d ==> (d in t'.devices <==> d in w.t.devices && !ArchivedNow(w.t, d)))
            && (!e.Delete? || e.device != d ==> (d in t'.devices <==> d in w.t.devices))
  {}

  /** Over every run, a device is archived exactly when it was archived after it was last restored or seen. */
  lemma {:induction false} ArchivedIff(events: seq<Event>, d: int)
    ensures var t := Run(START, events).t;
            && DistinctMacs(t)
            && (LastArchived(events, d) ==> d < t.nextDevice)
            && (d in t.devices ==> (ArchivedNow(t, d) <==> LastArchived(events, d)))
  {
    if events == [] {
    } else {
      var front, e := events[..|events| - 1], events[|events| - 1];
      var w := Run(START, front);
      ArchivedIff(front, d);
      if e.See? {
        SeenTarget(w.t, e.mac, d);
      } else {
        OtherStep(w, e, d);
      }
    }
  }

  /**
   A deletion takes effect exactly on a device archived since it was last restored or seen, and
   no other device goes.
   */
  lemma DeletedIff(events: seq<Event>, d: int, other: int)
    ensures var before, after := Run(START, events).t, Next(Run(START, events), Delete(d)).t;
            && (d in after.devices <==> d in before.devices && !LastArchived(events, d))
            && (other != d ==> (other in after.devices <==> other in before.devices))
            && (forall id | id in after.requests :: id in before.requests)
            && (forall id | id in before.requests ::
                  id !in after.requests <==> before.requests[id].device == d && d !in after.devices)
  {
    ArchivedIff(events, d);
    OtherStep(Run(START, events), Delete(d), d);
    OtherStep(Run(START, events), Delete(d), other);
    InvRun(events);
  }

  /** Apart from deletion no step removes a device, so a pending block always has its device. */
  lemma StaysUnlessDeleted(events: seq<Event>, e: Event, d: int)
    requires d in Run(START, events).t.devices && !(e.Delete? && e.device == d && LastArchived(events, d))
    ensures d in Next(Run(START, events), e).t.devices
  {
    ArchivedIff(events, d);
    if e.See? {
      SeenTarget(Run(START, events).t, e.mac, d);
    } else {
      OtherStep(Run(START, events), e, d);
    }
  }
}
