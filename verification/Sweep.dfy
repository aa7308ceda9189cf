/**
 The decision of one sweep over the change log: which dormant pins to evict, and which segments nothing
 can resume inside any more.
 */
module Sweep {
  import opened Basics
  import ChangeLog

  datatype SegmentPin = SegmentPin(shapeId: string, segment: nat, evictable: bool)

  datatype SegmentPlan = SegmentPlan(evict: seq<string>, delete: seq<nat>)

  /** When a segment was rotated out: when its successor became current; never for the current one. */
  function RotatedOutAt(segments: map<nat, nat>, current: nat, n: nat): Option<nat> {
    if n >= current then None
    else if n + 1 in segments then Some(segments[n + 1])
    else None
  }

  /** A pin the sweeper may release, on a segment rotated out at least `retain` ago; 0 disables that. */
  predicate Stale(segments: map<nat, nat>, current: nat, retain: nat, now: nat, pin: SegmentPin) {
    && pin.evictable && retain != 0
    && var at := RotatedOutAt(segments, current, pin.segment);
       at.Some? && (if now >= at.value then now - at.value else 0) >= retain
  }

  function StaleIds(segments: map<nat, nat>, current: nat, retain: nat, now: nat, pins: seq<SegmentPin>): seq<string> {
    if pins == [] then []
    else
      (if Stale(segments, current, retain, now, pins[0]) then [pins[0].shapeId] else [])
      + StaleIds(segments, current, retain, now, pins[1..])
  }

  function Alive(segments: map<nat, nat>, current: nat, retain: nat, now: nat, pins: seq<SegmentPin>): seq<SegmentPin> {
    if pins == [] then []
    else
      (if Stale(segments, current, retain, now, pins[0]) then [] else [pins[0]])
      + Alive(segments, current, retain, now, pins[1..])
  }

  /** Known, and below the current segment, the checkpoint and every one of the pins. */
  predicate Deletable(segments: map<nat, nat>, current: nat, checkpoint: nat, pins: seq<SegmentPin>, n: nat) {
    n in segments && n < current && n < checkpoint && forall p | p in pins :: n < p.segment
  }

  /** What lets go of a pin: it may be released, and its segment is closed and was succeeded at or before
      `now - retain`, as far as that is known. */
  predicate Overdue(segments: map<nat, nat>, current: nat, retain: nat, now: nat, p: SegmentPin) {
    && p.evictable && 0 < retain
    && p.segment < current && p.segment + 1 in segments
    && segments[p.segment + 1] + retain <= now
  }

  lemma StaleIsOverdue(segments: map<nat, nat>, current: nat, retain: nat, now: nat, p: SegmentPin)
    ensures Stale(segments, current, retain, now, p) <==> Overdue(segments, current, retain, now, p)
  {
  }

  lemma {:induction false} StaleIdsAre(segments: map<nat, nat>, current: nat, retain: nat, now: nat, pins: seq<SegmentPin>, id: string)
    ensures id in StaleIds(segments, current, retain, now, pins)
            <==> exists p :: p in pins && p.shapeId == id && Stale(segments, current, retain, now, p)
  {
    if pins != [] {
      StaleIdsAre(segments, current, retain, now, pins[1..], id);
      assert pins[0] in pins && forall p :: p in pins <==> p == pins[0] || p in pins[1..];
      var rest := StaleIds(segments, current, retain, now, pins[1..]);
      assert id in [pins[0].shapeId] + rest <==> id == pins[0].shapeId || id in rest;
    }
  }

  /** The plan evicts exactly the shapes with an overdue pin, in the order of their pins, and deletes
      exactly the known closed segments below the checkpoint and below every other pin, in ascending
      order. */
  method PlanSegmentDeletion(segments: map<nat, nat>, current: nat, checkpoint: nat, pins: seq<SegmentPin>,
                             retain: nat, now: nat)
    returns (plan: SegmentPlan)
    ensures plan.evict == StaleIds(segments, current, retain, now, pins)
    ensures forall id :: id in plan.evict <==>
              exists p :: p in pins && p.shapeId == id && Overdue(segments, current, retain, now, p)
    ensures Ascending(plan.delete)
    ensures forall n: nat :: n in plan.delete <==>
              && n in segments && n < current && n < checkpoint
              && forall p | p in pins && !Overdue(segments, current, retain, now, p) :: n < p.segment
    ensures forall n: nat ::
              n in plan.delete <==> Deletable(segments, current, checkpoint, Alive(segments, current, retain, now, pins), n)
  {
    forall p
      ensures Stale(segments, current, retain, now, p) <==> Overdue(segments, current, retain, now, p)
    {
      StaleIsOverdue(segments, current, retain, now, p);
    }
    forall id
      ensures id in StaleIds(segments, current, retain, now, pins)
              <==> exists p :: p in pins && p.shapeId == id && Stale(segments, current, retain, now, p)
    {
      StaleIdsAre(segments, current, retain, now, pins, id);
    }
    AliveIs(segments, current, retain, now, pins);
    var evict, alive := Partition(segments, current, pins, retain, now);
    var minNeeded := Floor(checkpoint, alive);
    var delete := Below(segments, if minNeeded < current then minNeeded else current);
    plan := SegmentPlan(evict, delete);
  }

  method Partition(segments: map<nat, nat>, current: nat, pins: seq<SegmentPin>, retain: nat, now: nat)
    returns (evict: seq<string>, alive: seq<SegmentPin>)
    ensures evict == StaleIds(segments, current, retain, now, pins)
    ensures alive == Alive(segments, current, retain, now, pins)
  {
    evict, alive := [], [];
    var i := 0;
    assert pins[0..] == pins;
    while i < |pins|
      invariant i <= |pins|
      invariant evict + StaleIds(segments, current, retain, now, pins[i..]) == StaleIds(segments, current, retain, now, pins)
      invariant alive + Alive(segments, current, retain, now, pins[i..]) == Alive(segments, current, retain, now, pins)
    {
      PartitionStep(segments, current, retain, now, pins, i, evict, alive);
      if Stale(segments, current, retain, now, pins[i]) {
        evict := evict + [pins[i].shapeId];
      } else {
        alive := alive + [pins[i]];
      }
      i := i + 1;
    }
  }

  lemma PartitionStep(segments: map<nat, nat>, current: nat, retain: nat, now: nat, pins: seq<SegmentPin>, i: nat,
                      evict: seq<string>, alive: seq<SegmentPin>)
    requires i < |pins|
    ensures evict + StaleIds(segments, current, retain, now, pins[i..])
            == (if Stale(segments, current, retain, now, pins[i]) then evict + [pins[i].shapeId] else evict)
               + StaleIds(segments, current, retain, now, pins[i + 1..])
    ensures alive + Alive(segments, current, retain, now, pins[i..])
            == (if Stale(segments, current, retain, now, pins[i]) then alive else alive + [pins[i]])
               + Alive(segments, current, retain, now, pins[i + 1..])
  {
    assert pins[i..][0] == pins[i] && pins[i..][1..] == pins[i + 1..];
  }

  /** The lowest segment anything still needs. */
  method Floor(checkpoint: nat, alive: seq<SegmentPin>) returns (minNeeded: nat)
    ensures minNeeded <= checkpoint && forall p | p in alive :: minNeeded <= p.segment
    ensures minNeeded == checkpoint || exists p | p in alive :: minNeeded == p.segment
  {
    minNeeded := checkpoint;
    for i := 0 to |alive|
      invariant minNeeded <= checkpoint
      invariant forall k | 0 <= k < i :: minNeeded <= alive[k].segment
      invariant minNeeded == checkpoint || exists p | p in alive :: minNeeded == p.segment
    {
      if alive[i].segment < minNeeded {
        minNeeded := alive[i].segment;
      }
    }
  }

  /** The known segments below a bound, ascending, as the ordered map lists them. */
  method Below(segments: map<nat, nat>, bound: nat) returns (keys: seq<nat>)
    ensures Ascending(keys) && forall n: nat :: n in keys <==> n in segments && n < bound
  {
    keys := [];
    for n := 0 to bound
      invariant Ascending(keys) && forall k | 0 <= k < |keys| :: keys[k] < n
      invariant forall m: nat :: m in keys <==> m in segments && m < n
    {
      if n in segments {
        keys := keys + [n];
      }
    }
  }

  // ---- Planning twice -----------------------------------------------------------------------------

  lemma {:induction false} AliveIs(segments: map<nat, nat>, current: nat, retain: nat, now: nat, pins: seq<SegmentPin>)
    ensures forall p :: p in Alive(segments, current, retain, now, pins)
                        <==> p in pins && !Stale(segments, current, retain, now, p)
  {
    if pins != [] {
      AliveIs(segments, current, retain, now, pins[1..]);
      assert forall p :: p in pins <==> p == pins[0] || p in pins[1..];
    }
  }

  /** The second plan runs later, with retain off, on whatever segments, floor and pins there are then. It
      never goes past a pin that is left, stale or not, old or new. What the first plan proposed it deletes
      exactly if no pin left is in the way; and if it deletes something more of the first plan's segments,
      either the floor has risen over it or a pin that stood in the way has gone. */
  lemma SecondPlanCountsEveryPin(first: SweepInput, second: SweepInput, retain: nat, now: nat, later: nat, n: nat)
    requires first.current <= second.current && first.checkpoint <= second.checkpoint
    ensures StaleIds(second.segments, second.current, 0, later, second.pins) == []
    ensures Proposed(second, 0, later, n) ==> forall p | p in second.pins :: n < p.segment
    ensures Proposed(first, retain, now, n) && n in second.segments ==>
              (Proposed(second, 0, later, n) <==> forall p | p in second.pins :: n < p.segment)
    ensures Proposed(second, 0, later, n) && !Proposed(first, retain, now, n) && n in first.segments ==>
              || first.checkpoint <= n || first.current <= n
              || exists p | p in first.pins :: p.segment <= n && p !in second.pins
    ensures forall p | p in first.pins && !p.evictable :: !Stale(first.segments, first.current, retain, now, p)
  {
    NothingStale(second.segments, second.current, later, second.pins);
    AliveIs(first.segments, first.current, retain, now, first.pins);
  }

  /** What a plan is made from. */
  datatype SweepInput = SweepInput(segments: map<nat, nat>, current: nat, checkpoint: nat, pins: seq<SegmentPin>)

  predicate Proposed(i: SweepInput, retain: nat, now: nat, n: nat) {
    Deletable(i.segments, i.current, i.checkpoint, Alive(i.segments, i.current, retain, now, i.pins), n)
  }

  lemma {:induction false} NothingStale(segments: map<nat, nat>, current: nat, now: nat, pins: seq<SegmentPin>)
    ensures StaleIds(segments, current, 0, now, pins) == []
    ensures Alive(segments, current, 0, now, pins) == pins
  {
    if pins != [] {
      NothingStale(segments, current, now, pins[1..]);
    }
  }

  /** The plan is the machine's: with the pins a sweep read there, what it deletes are the candidates the
      machine finds when it reads the floor. */
  lemma PlanIsMachinePlan(w: ChangeLog.Log, v: ChangeLog.Log, segments: map<nat, nat>, current: nat,
                          pins: seq<SegmentPin>, n: nat)
    requires ChangeLog.SweepStep(w, ChangeLog.ReadFloor(segments.Keys, current), v)
    requires forall id | id in w.scan.seen :: exists p | p in pins :: p.segment == w.scan.seen[id]
    requires forall p | p in pins :: exists id | id in w.scan.seen :: p.segment == w.scan.seen[id]
    ensures v.scan.FloorRead?
    ensures n in v.scan.candidates <==> Deletable(segments, current, w.checkpoint.seg, pins, n)
  {
  }
}
