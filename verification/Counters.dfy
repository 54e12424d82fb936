/**
 Cumulative router counters and the usage between two of them
 (api/internal/router/router.go).
 */
module Counters {

  const MAX_UINT64: int := 0xFFFF_FFFF_FFFF_FFFF

  type uint64 = x: int | 0 <= x <= MAX_UINT64

  datatype Direction = Download | Upload

  /** `recordedAt` counts microseconds from Go's zero time, so 0 means "not set". */
  datatype TrafficCounters = TrafficCounters(recordedAt: int, download: uint64, upload: uint64, uptime: uint64)
  {
    function Bytes(dir: Direction): uint64 {
      match dir
      case Download => download
      case Upload => upload
    }
  }

  datatype Delta = Delta(download: uint64, upload: uint64, reset: bool)
  {
    function Bytes(dir: Direction): uint64 {
      match dir
      case Download => download
      case Upload => upload
    }
  }

  function CalculateDelta(previous: TrafficCounters, current: TrafficCounters): (d: Delta)
    // Usage never exceeds what the current counter shows, and without a reset it closes the books exactly.
    ensures d.download <= current.download && d.upload <= current.upload
    ensures d.reset <==>
            || current.uptime < previous.uptime
            || current.download < previous.download
            || current.upload < previous.upload
    ensures !d.reset ==>
            previous.download + d.download == current.download && previous.upload + d.upload == current.upload
    ensures d.reset ==> d.download == current.download && d.upload == current.upload
  {
    var reset := current.uptime < previous.uptime || current.download < previous.download
      || current.upload < previous.upload;
    if reset then Delta(current.download, current.upload, true)
    else Delta(current.download - previous.download, current.upload - previous.upload, false)
  }

  /** The usage between each reading and the one after it. */
  function Deltas(rs: seq<TrafficCounters>): (ds: seq<Delta>)
    ensures |ds| == if rs == [] then 0 else |rs| - 1
  {
    if |rs| < 2 then []
    else Deltas(rs[..|rs| - 1]) + [CalculateDelta(rs[|rs| - 2], rs[|rs| - 1])]
  }

  function SumDeltas(ds: seq<Delta>, dir: Direction): nat {
    if ds == [] then 0 else SumDeltas(ds[..|ds| - 1], dir) + ds[|ds| - 1].Bytes(dir)
  }

  /** The readings cut into maximal stretches that contain no reset. */
  function Segments(rs: seq<TrafficCounters>): (segments: seq<seq<TrafficCounters>>)
    ensures rs != [] ==> segments != []
    ensures forall k | 0 <= k < |segments| :: segments[k] != []
    ensures rs != [] ==> Last(Last(segments)) == Last(rs)
  {
    if rs == [] then []
    else if |rs| == 1 then [rs]
    else
      var before := Segments(rs[..|rs| - 1]);
      if CalculateDelta(rs[|rs| - 2], rs[|rs| - 1]).reset then before + [[rs[|rs| - 1]]]
      else before[..|before| - 1] + [Last(before) + [rs[|rs| - 1]]]
  }

  function Last<T>(s: seq<T>): T
    requires s != []
  {
    s[|s| - 1]
  }

  function Flatten<T>(parts: seq<seq<T>>): seq<T> {
    if parts == [] then [] else Flatten(parts[..|parts| - 1]) + Last(parts)
  }

  predicate ResetFree(segment: seq<TrafficCounters>) {
    forall i | 0 < i < |segment| :: !CalculateDelta(segment[i - 1], segment[i]).reset
  }

  lemma FlattenSnoc<T>(parts: seq<seq<T>>, part: seq<T>)
    ensures Flatten(parts + [part]) == Flatten(parts) + part
  {
    assert (parts + [part])[..|parts|] == parts;
  }

  lemma FlattenGrowLast<T>(parts: seq<seq<T>>, x: T)
    requires parts != []
    ensures Flatten(parts[..|parts| - 1] + [Last(parts) + [x]]) == Flatten(parts) + [x]
  {
    FlattenSnoc(parts[..|parts| - 1], Last(parts) + [x]);
  }

  /** `Segments` loses and reorders nothing. */
  lemma {:induction false} SegmentsFlatten(rs: seq<TrafficCounters>)
    ensures Flatten(Segments(rs)) == rs
  {
    if |rs| == 1 {
      FlattenSnoc([], rs);
      assert [] + [rs] == [rs];
    } else if |rs| > 1 {
      var front, last := rs[..|rs| - 1], rs[|rs| - 1];
      var before := Segments(front);
      SegmentsFlatten(front);
      if CalculateDelta(rs[|rs| - 2], last).reset {
        FlattenSnoc(before, [last]);
      } else {
        FlattenGrowLast(before, last);
      }
      assert rs == front + [last];
    }
  }

  predicate ResetBetween(a: seq<TrafficCounters>, b: seq<TrafficCounters>)
    requires a != [] && b != []
  {
    CalculateDelta(Last(a), b[0]).reset
  }

  /** `Segments` cuts at the resets and nowhere else. */
  lemma {:induction false} SegmentsCutAtResets(rs: seq<TrafficCounters>)
    ensures forall k | 0 <= k < |Segments(rs)| :: ResetFree(Segments(rs)[k])
    ensures forall k | 0 < k < |Segments(rs)| :: ResetBetween(Segments(rs)[k - 1], Segments(rs)[k])
  {
    if |rs| <= 1 {
    } else {
      var front, last := rs[..|rs| - 1], rs[|rs| - 1];
      var before, segments := Segments(front), Segments(rs);
      SegmentsCutAtResets(front);
      assert Last(Last(before)) == rs[|rs| - 2];
      if CalculateDelta(rs[|rs| - 2], last).reset {
        assert segments == before + [[last]];
      } else {
        ExtendResetFree(Last(before), last);
        assert segments == before[..|before| - 1] + [Last(before) + [last]];
        forall k | 0 < k < |segments| ensures ResetBetween(segments[k - 1], segments[k]) {
          assert ResetBetween(before[k - 1], before[k]);
        }
      }
    }
  }

  lemma ExtendResetFree(segment: seq<TrafficCounters>, next: TrafficCounters)
    requires segment != [] && ResetFree(segment) && !CalculateDelta(Last(segment), next).reset
    ensures ResetFree(segment + [next])
  {
    var longer := segment + [next];
    forall i | 0 < i < |longer| ensures !CalculateDelta(longer[i - 1], longer[i]).reset {
      assert longer[i - 1] == segment[i - 1];
      if i < |segment| { assert longer[i] == segment[i]; }
    }
  }

  /** Counter growth over the first segment plus the final counter of every later one. */
  function Telescoped(segments: seq<seq<TrafficCounters>>, dir: Direction): int
    requires segments != [] && forall k | 0 <= k < |segments| :: segments[k] != []
  {
    if |segments| == 1 then Last(segments[0]).Bytes(dir) - segments[0][0].Bytes(dir)
    else Telescoped(segments[..|segments| - 1], dir) + Last(Last(segments)).Bytes(dir)
  }

  lemma TelescopedSnoc(segments: seq<seq<TrafficCounters>>, x: TrafficCounters, dir: Direction)
    requires segments != [] && forall k | 0 <= k < |segments| :: segments[k] != []
    ensures Telescoped(segments + [[x]], dir) == Telescoped(segments, dir) + x.Bytes(dir)
  {
    assert (segments + [[x]])[..|segments|] == segments;
  }

  lemma TelescopedGrow(segments: seq<seq<TrafficCounters>>, x: TrafficCounters, dir: Direction)
    requires segments != [] && forall k | 0 <= k < |segments| :: segments[k] != []
    ensures Telescoped(segments[..|segments| - 1] + [Last(segments) + [x]], dir)
            == Telescoped(segments, dir) + x.Bytes(dir) - Last(Last(segments)).Bytes(dir)
  {
    var front := segments[..|segments| - 1];
    var grown := front + [Last(segments) + [x]];
    assert grown[..|front|] == front;
    assert grown[|front|] == Last(segments) + [x];
    if front == [] {
      assert grown[0][0] == segments[0][0];
    }
  }

  lemma SumDeltasSnoc(ds: seq<Delta>, d: Delta, dir: Direction)
    ensures SumDeltas(ds + [d], dir) == SumDeltas(ds, dir) + d.Bytes(dir)
  {
    assert (ds + [d])[..|ds|] == ds;
  }

  lemma TelescopeStep(rs: seq<TrafficCounters>, dir: Direction)
    requires |rs| > 1
    ensures var front := rs[..|rs| - 1];
            Telescoped(Segments(rs), dir)
              == Telescoped(Segments(front), dir) + CalculateDelta(Last(front), Last(rs)).Bytes(dir)
  {
    var front, last := rs[..|rs| - 1], Last(rs);
    var before := Segments(front);
    assert Last(front) == rs[|rs| - 2];
    if CalculateDelta(Last(front), last).reset {
      assert Segments(rs) == before + [[last]];
      TelescopedSnoc(before, last, dir);
    } else {
      assert Segments(rs) == before[..|before| - 1] + [Last(before) + [last]];
      TelescopedGrow(before, last, dir);
    }
  }

  lemma DeltasStep(rs: seq<TrafficCounters>, dir: Direction)
    requires |rs| > 1
    ensures var front := rs[..|rs| - 1];
            SumDeltas(Deltas(rs), dir)
              == SumDeltas(Deltas(front), dir) + CalculateDelta(Last(front), Last(rs)).Bytes(dir)
  {
    var front := rs[..|rs| - 1];
    SumDeltasSnoc(Deltas(front), CalculateDelta(Last(front), Last(rs)), dir);
  }

  /** Telescoping: all the readings between a segment's ends drop out of the total. */
  lemma {:induction false} DeltasTelescope(rs: seq<TrafficCounters>, dir: Direction)
    requires rs != []
    ensures SumDeltas(Deltas(rs), dir) == Telescoped(Segments(rs), dir)
  {
    if |rs| <= 1 {
    } else {
      DeltasTelescope(rs[..|rs| - 1], dir);
      DeltasStep(rs, dir);
      TelescopeStep(rs, dir);
    }
  }
}
