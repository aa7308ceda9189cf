/**
 The segmented change log as a state machine: a writer that rotates in separate durable actions and may
 fail or crash between any two, a catalog whose records arrive late or never, readers that cross segments,
 positions that pin segments, and a sweeper that deletes below them.
 */
module ChangeLog {
  import opened Basics

  /** An item of a segment: a committed change, or the control envelope naming a successor. */
  datatype Item = Data(d: int) | Pointer(next: nat)

  datatype Segment = Segment(items: seq<Item>, closed: bool)

  /** A log position: segment first, then offset within it. */
  datatype Position = Position(seg: nat, idx: nat)

  predicate AtOrBefore(a: Position, b: Position) {
    a.seg < b.seg || (a.seg == b.seg && a.idx <= b.idx)
  }

  // ---- Data in log order --------------------------------------------------------------------------

  /** The changes among the items; control envelopes are dropped by type, wherever they stand. */
  function DataOf(items: seq<Item>): seq<int> {
    if items == [] then []
    else (if items[0].Data? then [items[0].d] else []) + DataOf(items[1..])
  }

  /** All changes of the segments, in segment order. */
  function AllData(segs: seq<Segment>): seq<int> {
    if segs == [] then [] else AllData(segs[..|segs| - 1]) + DataOf(segs[|segs| - 1].items)
  }

  ghost predicate InLog(segs: seq<Segment>, p: Position) {
    p.seg < |segs| && p.idx <= |segs[p.seg].items|
  }

  /** All changes before the position. */
  ghost function DataTo(segs: seq<Segment>, p: Position): seq<int>
    requires InLog(segs, p)
  {
    AllData(segs[..p.seg]) + DataOf(segs[p.seg].items[..p.idx])
  }

  // ---- The state ----------------------------------------------------------------------------------

  /** How far the writer's current rotation attempt has come. */
  datatype Rotation = Resting | Created | Pointed | Closed

  datatype Writer = Down | Up(current: nat, rotation: Rotation)

  datatype Reader = Reader(start: Position, pos: Position, delivered: seq<int>)

  /** A held position: a dormant shape's or a consumer's (evictable), or a shape replaying from it. */
  datatype Pin = Pin(pos: Position, evictable: bool)

  /** A consumer's request to pin a position, checked but not yet in force. */
  datatype PinRequest = PinRequest(consumer: nat, pos: Position)

  /** A sweep reads the pins, then the floor, then whether a shape is being parked. `seen` are the segments
      of the pins it read, `candidates` what it would delete, and `late` the pins that came after. */
  datatype Scan =
    | NoScan
    | PinsRead(seen: map<nat, nat>, late: set<nat>)
    | FloorRead(candidates: set<nat>, late: set<nat>)

  /** `segs` are all segments ever created, `gone` the deleted ones; `recorded` is the highest segment the
      durable catalog names. `landing` are positions captured by shapes being parked that have not become
      pins yet, `pinning` the consumers' requests; `plan` are the segments the sweeper has decided to
      delete. */
  datatype Log = Log(
    segs: seq<Segment>, gone: set<nat>, recorded: Option<nat>, writer: Writer,
    checkpoint: Position, readers: map<nat, Reader>, pins: map<nat, Pin>, landing: map<nat, Position>,
    pinning: map<nat, PinRequest>, scan: Scan, plan: set<nat>)

  predicate Exists(w: Log, n: nat) {
    n < |w.segs| && n !in w.gone
  }

  /** The segment commits go to: the last one, unless that one is a successor not switched to yet. */
  function WriteSeg(segs: seq<Segment>): (n: nat)
    requires segs != []
    ensures n < |segs|
  {
    var top := |segs| - 1;
    if top > 0 && !segs[top - 1].closed then top - 1 else top
  }

  // ---- The boot walk ------------------------------------------------------------------------------

  const MAX_WALK: nat := 1_000_000

  /** `Unanswered` is a request that failed; the walk gives up on it. */
  datatype WalkError = Missing(seg: nat) | NoSuccessor(seg: nat) | TooLong | Unanswered

  /** What storage answers about a segment: absent, or whether it is closed. */
  type Heads = nat -> Option<bool>

  function HeadsOf(w: Log): Heads {
    (n: nat) => if Exists(w, n) then Some(w.segs[n].closed) else None
  }

  /** The walk over closed segments from `cur`, with `fuel` rounds left. */
  function Walk(heads: Heads, from: nat, cur: nat, recorded: bool, fuel: nat): Result<nat, WalkError>
    decreases fuel
  {
    if fuel == 0 then Err(TooLong)
    else match heads(cur)
      case None => if cur == from && !recorded then Ok(cur) else Err(Missing(cur))
      case Some(closed) =>
        if !closed then Ok(cur)
        else if heads(cur + 1).None? then Err(NoSuccessor(cur))
        else Walk(heads, from, cur + 1, recorded, fuel - 1)
  }

  function ResolveCurrent(heads: Heads, from: nat, recorded: bool): Result<nat, WalkError> {
    Walk(heads, from, from, recorded, MAX_WALK)
  }

  // ---- Steps --------------------------------------------------------------------------------------

  datatype Event =
    | Boot
    | Commit(data: seq<int>)
    | CreateSuccessor
    | AppendPointer
    | CloseSegment
    | Began
    | Fail
    | ResolveForward
    | Record(n: nat)
    | Crash
    | StartReader(id: nat, at: Position)
    | ReadPage(id: nat, count: nat)
    | Cross(id: nat, target: nat)
    | StopReader(id: nat)
    | Checkpoint(id: nat, at: Position)
    | Capture(id: nat, reader: nat)
    | Land(id: nat)
    | PinCheck(req: nat, id: nat, at: Position)
    | PinLand(req: nat)
    | Reactivate(id: nat)
    | Release(id: nat)
    | Evict(id: nat)
    | ReadPins
    | ReadFloor(known: set<nat>, current: nat)
    | CheckLanding
    | Delete(n: nat)

  /** The sequencer's reader; every other reader replays for the pin of the same number. */
  const SEQUENCER: nat := 0

  function AddItems(segs: seq<Segment>, n: nat, items: seq<Item>): seq<Segment>
    requires n < |segs|
  {
    segs[n := segs[n].(items := segs[n].items + items)]
  }

  function ToItems(data: seq<int>): (items: seq<Item>)
    ensures |items| == |data| && forall i | 0 <= i < |data| :: items[i] == Data(data[i])
  {
    seq(|data|, i requires 0 <= i < |data| => Data(data[i]))
  }

  ghost predicate WriterStep(w: Log, ev: Event, v: Log) {
    match ev
    case Boot =>
      && w.writer.Down?
      && var from := if w.recorded.Some? then w.recorded.value else 0;
         var resolved := ResolveCurrent(HeadsOf(w), from, w.recorded.Some?);
         && resolved.Ok?
         // The resolved segment is created if this is the very first boot.
         && v == w.(segs := if resolved.value == |w.segs| then w.segs + [Segment([], false)] else w.segs,
                    writer := Up(resolved.value, Resting))
    case Commit(data) =>
      && w.writer.Up? && w.writer.rotation.Resting? && w.writer.current < |w.segs|
      && !w.segs[w.writer.current].closed
      && v == w.(segs := AddItems(w.segs, w.writer.current, ToItems(data)))
    case CreateSuccessor =>
      && w.writer.Up? && w.writer.rotation.Resting?
      && var to := w.writer.current + 1;
         v == w.(segs := if to == |w.segs| then w.segs + [Segment([], false)] else w.segs,
                 writer := w.writer.(rotation := Created))
    case AppendPointer =>
      && w.writer.Up? && w.writer.rotation.Created? && w.writer.current < |w.segs|
      && !w.segs[w.writer.current].closed
      && v == w.(segs := AddItems(w.segs, w.writer.current, [Pointer(w.writer.current + 1)]),
                 writer := w.writer.(rotation := Pointed))
    case CloseSegment =>
      && w.writer.Up? && w.writer.rotation.Pointed? && w.writer.current < |w.segs|
      && var n := w.writer.current;
         v == w.(segs := w.segs[n := w.segs[n].(closed := true)], writer := w.writer.(rotation := Closed))
    case Began =>
      w.writer.Up? && w.writer.rotation.Closed? && v == w.(writer := Up(w.writer.current + 1, Resting))
    case Fail =>
      // An action that failed, or whose answer was lost after it took effect, abandons the attempt.
      w.writer.Up? && v == w.(writer := w.writer.(rotation := Resting))
    case ResolveForward =>
      && w.writer.Up? && w.writer.rotation.Resting? && w.writer.current < |w.segs|
      && w.segs[w.writer.current].closed
      && var resolved := ResolveCurrent(HeadsOf(w), w.writer.current, true);
         resolved.Ok? && v == w.(writer := Up(resolved.value, Resting))
    case Record(n) =>
      && w.writer.Up? && n <= w.writer.current && (w.recorded.Some? ==> w.recorded.value < n)
      && v == w.(recorded := Some(n))
    case Crash =>
      v == w.(writer := Down, readers := map[], landing := map[], pinning := map[], scan := NoScan, plan := {})
    case _ => false
  }

  ghost predicate ReaderStep(w: Log, ev: Event, v: Log) {
    match ev
    case StartReader(id, at) =>
      && id !in w.readers && w.segs != []
      && at == (if id == SEQUENCER then w.checkpoint else if id in w.pins then w.pins[id].pos else at)
      && (id == SEQUENCER || (id in w.pins && !w.pins[id].evictable))
      && v == w.(readers := w.readers[id := Reader(at, at, [])])
    case ReadPage(id, count) =>
      && id in w.readers && Exists(w, w.readers[id].pos.seg)
      && var r := w.readers[id]; var items := w.segs[r.pos.seg].items;
         && r.pos.idx + count <= |items|
         && v == w.(readers := w.readers[id := r.(
                      pos := r.pos.(idx := r.pos.idx + count),
                      delivered := r.delivered + DataOf(items[r.pos.idx..r.pos.idx + count]))])
    case Cross(id, target) =>
      // Only from a closed and drained segment: to the pointer's target if one was read there, or else
      // to the next number if storage has it.
      && id in w.readers && Exists(w, w.readers[id].pos.seg)
      && var r := w.readers[id]; var seg := w.segs[r.pos.seg];
         && seg.closed && r.pos.idx == |seg.items|
         && (Pointer(target) in seg.items || (target == r.pos.seg + 1 && Exists(w, target)))
         && v == w.(readers := w.readers[id := r.(pos := Position(target, 0))])
    case StopReader(id) => v == w.(readers := w.readers - {id})
    case _ => false
  }

  ghost predicate PinStep(w: Log, ev: Event, v: Log) {
    match ev
    case Checkpoint(id, at) =>
      // Durable checkpoints trail the sequencer, and never move back.
      && id == SEQUENCER && id in w.readers && InLog(w.segs, at)
      && AtOrBefore(w.checkpoint, at) && AtOrBefore(at, w.readers[id].pos)
      && v == w.(checkpoint := at)
    case Capture(id, reader) =>
      && reader == SEQUENCER && reader in w.readers && id != SEQUENCER && id !in w.pins && id !in w.landing
      && v == w.(landing := w.landing[id := w.readers[reader].pos])
    case Land(id) =>
      && id in w.landing && id !in w.pins
      && v == w.(landing := w.landing - {id}, pins := w.pins[id := Pin(w.landing[id], true)], scan := Late(w.scan, id))
    case PinCheck(req, id, at) =>
      // Any known segment will do; a position may not move back from the one in force.
      && w.writer.Up? && req !in w.pinning && id != SEQUENCER
      && InLog(w.segs, at) && at.seg <= w.writer.current
      && (id in w.pins ==> w.pins[id].evictable && AtOrBefore(w.pins[id].pos, at))
      && v == w.(pinning := w.pinning[req := PinRequest(id, at)])
    case PinLand(req) =>
      // In force once its record is durable. Consumers never replay, so their pins are always evictable.
      && req in w.pinning
      && var id := w.pinning[req].consumer;
         && (id in w.pins ==> w.pins[id].evictable)
         && v == w.(pinning := w.pinning - {req}, pins := w.pins[id := Pin(w.pinning[req].pos, true)],
                    scan := Late(w.scan, id))
    case Reactivate(id) =>
      id in w.pins && v == w.(pins := w.pins[id := w.pins[id].(evictable := false)])
    case Release(id) =>
      id in w.pins && !w.pins[id].evictable && v == w.(pins := w.pins - {id}, readers := w.readers - {id})
    case Evict(id) =>
      id in w.pins && w.pins[id].evictable && v == w.(pins := w.pins - {id})
    case _ => false
  }

  /** A pin that came while a sweep was reading. */
  function Late(scan: Scan, id: nat): Scan {
    match scan
    case NoScan => NoScan
    case PinsRead(seen, late) => PinsRead(seen, late + {id})
    case FloorRead(candidates, late) => FloorRead(candidates, late + {id})
  }

  /** Known, and below the current segment, the durable checkpoint and every pin that was read. */
  ghost predicate BelowFloor(w: Log, known: set<nat>, current: nat, seen: map<nat, nat>, n: nat) {
    n in known && n < current && n < w.checkpoint.seg && forall id | id in seen :: n < seen[id]
  }

  ghost function Candidates(w: Log, known: set<nat>, current: nat, seen: map<nat, nat>): set<nat> {
    set n | n in known && BelowFloor(w, known, current, seen, n)
  }

  ghost predicate SweepStep(w: Log, ev: Event, v: Log) {
    match ev
    case ReadPins => w.writer.Up? && v == w.(scan := PinsRead(map id | id in w.pins :: w.pins[id].pos.seg, {}))
    case ReadFloor(known, current) =>
      && w.scan.PinsRead? && w.writer.Up? && current <= w.writer.current
      && v == w.(scan := FloorRead(Candidates(w, known, current, w.scan.seen), w.scan.late))
    case CheckLanding =>
      // While a shape is being parked, everything is left to the next sweep.
      && w.scan.FloorRead?
      && v == w.(scan := NoScan, plan := if w.landing == map[] then w.scan.candidates else w.plan)
    case Delete(n) => n in w.plan && v == w.(gone := w.gone + {n}, plan := w.plan - {n})
    case _ => false
  }

  ghost predicate Next(w: Log, ev: Event, v: Log) {
    WriterStep(w, ev, v) || ReaderStep(w, ev, v) || PinStep(w, ev, v) || SweepStep(w, ev, v)
  }

  /** Before anything was ever written. */
  ghost predicate Init(w: Log) {
    w == Log([], {}, None, Down, Position(0, 0), map[], map[], map[], map[], NoScan, {})
  }

  // ---- The invariant ------------------------------------------------------------------------------

  /** Everything below the write segment is closed, it is open, and at most an empty successor is above. */
  ghost predicate Shape(segs: seq<Segment>) {
    segs == [] || (
      var n := WriteSeg(segs);
      && !segs[n].closed
      && (forall i | 0 <= i < n :: segs[i].closed)
      && (n + 1 < |segs| ==> |segs| == n + 2 && segs[n + 1] == Segment([], false)))
  }

  ghost predicate PointersName(segs: seq<Segment>) {
    forall n, i | 0 <= n < |segs| && 0 <= i < |segs[n].items| && segs[n].items[i].Pointer? ::
      segs[n].items[i].next == n + 1 && n + 1 < |segs|
  }

  ghost predicate WriterInv(w: Log) {
    && Shape(w.segs) && PointersName(w.segs)
    && (w.writer.Up? ==>
          && w.segs != []
          && var n := WriteSeg(w.segs); var c := w.writer.current;
             && c <= n <= c + 1 && (w.recorded.Some? ==> w.recorded.value <= c)
             && (w.writer.rotation.Created? ==> c + 1 < |w.segs|)
             && (w.writer.rotation.Pointed? ==> c == n && c + 1 < |w.segs|)
             && (w.writer.rotation.Closed? ==> n == c + 1))
    && (w.recorded.Some? ==> w.segs != [] && w.recorded.value <= WriteSeg(w.segs))
  }

  /** A position some reader may read from: in the log, at or below the write segment. */
  ghost predicate Readable(w: Log, p: Position) {
    InLog(w.segs, p) && p.seg <= WriteSeg(w.segs)
  }

  /** No deleted or doomed segment is at or above the position. */
  ghost predicate Safe(w: Log, p: Position) {
    && (forall n | n in w.gone :: n < p.seg)
    && (forall n | n in w.plan :: n < p.seg)
  }

  /** A position the log still owes something to. */
  ghost predicate Held(w: Log, p: Position) {
    Readable(w, p) && Safe(w, p)
  }

  ghost predicate ReaderOk(w: Log, r: Reader) {
    && Readable(w, r.start) && Held(w, r.pos)
    && DataTo(w.segs, r.start) + r.delivered == DataTo(w.segs, r.pos)
  }

  ghost predicate ReaderHeld(w: Log, id: nat, r: Reader) {
    && ReaderOk(w, r)
    && (id == SEQUENCER ==> AtOrBefore(w.checkpoint, r.pos))
    && (id != SEQUENCER ==> id in w.pins && !w.pins[id].evictable && AtOrBefore(w.pins[id].pos, r.pos))
  }

  ghost predicate CheckpointOk(w: Log) {
    if w.segs == [] then
      w.checkpoint == Position(0, 0) && w.readers == map[] && w.pins == map[] && w.landing == map[]
      && w.pinning == map[] && w.scan.NoScan? && w.gone == {} && w.plan == {}
    else Held(w, w.checkpoint)
  }

  ghost predicate SweepOk(w: Log) {
    forall n | n in w.gone || n in w.plan :: w.recorded.Some? && n < w.recorded.value
  }

  /** What a sweep would delete is below the checkpoint and every pin but the late ones. */
  ghost predicate ScanOk(w: Log) {
    match w.scan
    case NoScan => true
    case PinsRead(seen, late) =>
      forall id | id in w.pins && id !in late :: id in seen && seen[id] <= w.pins[id].pos.seg
    case FloorRead(candidates, late) =>
      && (forall n | n in candidates :: n < w.checkpoint.seg)
      && (forall id, n | id in w.pins && id !in late && n in candidates :: n < w.pins[id].pos.seg)
  }

  ghost predicate RequestsOk(w: Log) {
    forall req | req in w.pinning :: w.pinning[req].consumer != SEQUENCER && Readable(w, w.pinning[req].pos)
  }

  ghost predicate PinInv(w: Log) {
    && CheckpointOk(w) && SweepOk(w) && ScanOk(w) && (w.segs != [] ==> RequestsOk(w))
    && (forall id | id in w.pins :: id != SEQUENCER && Held(w, w.pins[id].pos))
    && (forall id | id in w.landing :: id != SEQUENCER && Held(w, w.landing[id]))
    && (forall id | id in w.readers :: ReaderHeld(w, id, w.readers[id]))
  }

  ghost predicate Inv(w: Log) {
    WriterInv(w) && PinInv(w)
  }

  // ---- The boot walk finds the write segment ------------------------------------------------------

  /** From any segment at or below the write segment, with every segment from there on still stored, the
      walk ends at the write segment; it gives up only if that is `fuel` or more segments away. */
  lemma {:induction false} WalkFindsWriteSeg(w: Log, from: nat, cur: nat, recorded: bool, fuel: nat)
    requires w.segs != [] && Shape(w.segs) && cur <= WriteSeg(w.segs)
    requires forall n | n in w.gone :: n < cur
    ensures Walk(HeadsOf(w), from, cur, recorded, fuel)
            == if WriteSeg(w.segs) - cur < fuel then Ok(WriteSeg(w.segs)) else Err(TooLong)
    decreases fuel
  {
    if fuel > 0 && cur < WriteSeg(w.segs) {
      assert w.segs[cur].closed;
      WalkFindsWriteSeg(w, from, cur + 1, recorded, fuel - 1);
    }
  }

  lemma ResolveFindsWriteSeg(w: Log, from: nat, recorded: bool)
    requires w.segs != [] && Shape(w.segs) && from <= WriteSeg(w.segs)
    requires forall n | n in w.gone :: n < from
    ensures ResolveCurrent(HeadsOf(w), from, recorded)
            == if WriteSeg(w.segs) - from < MAX_WALK then Ok(WriteSeg(w.segs)) else Err(TooLong)
  {
    WalkFindsWriteSeg(w, from, from, recorded, MAX_WALK);
  }

  // ---- The log only grows at the write segment ----------------------------------------------------

  ghost predicate Grows(s: seq<Segment>, t: seq<Segment>) {
    && |s| <= |t|
    && (s != [] ==>
          && t != [] && WriteSeg(s) <= WriteSeg(t)
          && (forall i | 0 <= i < WriteSeg(s) :: s[i].items == t[i].items)
          && s[WriteSeg(s)].items <= t[WriteSeg(s)].items)
  }

  lemma {:induction false} DataOfConcat(a: seq<Item>, b: seq<Item>)
    ensures DataOf(a + b) == DataOf(a) + DataOf(b)
  {
    if a == [] {
      assert a + b == b;
    } else {
      assert (a + b)[0] == a[0] && (a + b)[1..] == a[1..] + b;
      DataOfConcat(a[1..], b);
    }
  }

  lemma {:induction false} AllDataOfItems(s: seq<Segment>, t: seq<Segment>)
    requires |s| == |t| && forall i | 0 <= i < |s| :: s[i].items == t[i].items
    ensures AllData(s) == AllData(t)
  {
    if s != [] {
      AllDataOfItems(s[..|s| - 1], t[..|t| - 1]);
    }
  }

  lemma DataToStable(s: seq<Segment>, t: seq<Segment>, p: Position)
    requires Grows(s, t) && InLog(s, p) && p.seg <= WriteSeg(s)
    ensures InLog(t, p) && p.seg <= WriteSeg(t)
    ensures DataTo(s, p) == DataTo(t, p)
  {
    assert s[p.seg].items <= t[p.seg].items;
    assert s[p.seg].items[..p.idx] == t[p.seg].items[..p.idx];
    AllDataOfItems(s[..p.seg], t[..p.seg]);
  }

  lemma AddItemsGrows(s: seq<Segment>, items: seq<Item>)
    requires s != [] && Shape(s)
    ensures Grows(s, AddItems(s, WriteSeg(s), items)) && Shape(AddItems(s, WriteSeg(s), items))
    ensures WriteSeg(AddItems(s, WriteSeg(s), items)) == WriteSeg(s)
  {
  }

  lemma NewSegmentGrows(s: seq<Segment>)
    requires s == [] || (Shape(s) && WriteSeg(s) == |s| - 1)
    ensures Grows(s, s + [Segment([], false)]) && Shape(s + [Segment([], false)])
    ensures WriteSeg(s + [Segment([], false)]) == if s == [] then 0 else WriteSeg(s)
  {
  }

  lemma CloseGrows(s: seq<Segment>, n: nat)
    requires s != [] && Shape(s) && n == WriteSeg(s) && n + 1 < |s|
    ensures var t := s[n := s[n].(closed := true)]; Grows(s, t) && Shape(t) && WriteSeg(t) == n + 1
  {
  }

  lemma ToItemsHoldsNoPointer(s: seq<Segment>, n: nat, data: seq<int>)
    requires n < |s| && PointersName(s)
    ensures PointersName(AddItems(s, n, ToItems(data)))
  {
  }

  /** Every writer step keeps the shape of the log and adds only at its write segment. */
  lemma WriterKeepsShape(w: Log, ev: Event, v: Log)
    requires WriterInv(w) && WriterStep(w, ev, v)
    requires forall n | n in w.gone :: w.recorded.Some? && n < w.recorded.value
    ensures WriterInv(v) && Grows(w.segs, v.segs)
  {
    match ev
    case Boot => BootKeepsShape(w, v);
    case Commit(data) =>
      AddItemsGrows(w.segs, ToItems(data));
      ToItemsHoldsNoPointer(w.segs, w.writer.current, data);
    case CreateSuccessor =>
      if w.writer.current + 1 == |w.segs| {
        NewSegmentGrows(w.segs);
      }
    case AppendPointer => AddItemsGrows(w.segs, [Pointer(w.writer.current + 1)]);
    case CloseSegment => CloseGrows(w.segs, w.writer.current);
    case ResolveForward => ResolveFindsWriteSeg(w, w.writer.current, true);
    case _ =>
  }

  lemma BootKeepsShape(w: Log, v: Log)
    requires WriterInv(w) && WriterStep(w, Boot, v)
    requires forall n | n in w.gone :: w.recorded.Some? && n < w.recorded.value
    ensures WriterInv(v) && Grows(w.segs, v.segs)
    ensures v.writer == Up(WriteSeg(v.segs), Resting)
  {
    if w.segs == [] {
      assert HeadsOf(w)(0).None?;
      assert ResolveCurrent(HeadsOf(w), 0, false) == Ok(0);
      NewSegmentGrows(w.segs);
    } else {
      ResolveFindsWriteSeg(w, if w.recorded.Some? then w.recorded.value else 0, w.recorded.Some?);
    }
  }

  // ---- Every step keeps the invariant -------------------------------------------------------------

  lemma ReadableGrows(w: Log, v: Log, p: Position)
    requires Grows(w.segs, v.segs) && Readable(w, p)
    ensures Readable(v, p) && DataTo(w.segs, p) == DataTo(v.segs, p)
  {
    DataToStable(w.segs, v.segs, p);
  }

  ghost predicate RecordedGrows(w: Log, v: Log) {
    w.recorded.Some? ==> v.recorded.Some? && w.recorded.value <= v.recorded.value
  }

  /** What a writer step leaves alone; a crash also loses whatever was only in memory. */
  ghost predicate WriterFrame(w: Log, v: Log) {
    && v.gone == w.gone && v.checkpoint == w.checkpoint && v.pins == w.pins && RecordedGrows(w, v)
    && ((v.readers == w.readers && v.landing == w.landing && v.pinning == w.pinning && v.scan == w.scan && v.plan == w.plan)
        || (v.readers == map[] && v.landing == map[] && v.pinning == map[] && v.scan.NoScan? && v.plan == {}))
  }

  lemma WriterStepFrame(w: Log, ev: Event, v: Log)
    requires WriterInv(w) && WriterStep(w, ev, v)
    ensures WriterFrame(w, v)
  {
  }

  lemma HeldGrows(w: Log, v: Log, p: Position)
    requires Grows(w.segs, v.segs) && WriterFrame(w, v) && Held(w, p)
    ensures Held(v, p)
  {
    ReadableGrows(w, v, p);
  }

  lemma ReaderGrows(w: Log, v: Log, id: nat, r: Reader)
    requires Grows(w.segs, v.segs) && WriterFrame(w, v) && ReaderHeld(w, id, r)
    ensures ReaderHeld(v, id, r)
  {
    ReadableGrows(w, v, r.start);
    ReadableGrows(w, v, r.pos);
  }

  lemma FrameKeepsPins(w: Log, v: Log)
    requires PinInv(w) && Grows(w.segs, v.segs) && WriterFrame(w, v)
    requires w.segs == [] && v.segs != [] ==> WriteSeg(v.segs) == 0
    ensures PinInv(v)
  {
    if w.segs != [] {
      HeldGrows(w, v, w.checkpoint);
    }
    forall id | id in v.pins ensures Held(v, v.pins[id].pos) { HeldGrows(w, v, w.pins[id].pos); }
    forall id | id in v.landing ensures Held(v, v.landing[id]) { HeldGrows(w, v, w.landing[id]); }
    forall id | id in v.readers ensures ReaderHeld(v, id, v.readers[id]) { ReaderGrows(w, v, id, w.readers[id]); }
    forall req | req in v.pinning ensures Readable(v, v.pinning[req].pos) { ReadableGrows(w, v, w.pinning[req].pos); }
  }

  /** A writer step leaves every held position readable and every reader's account of the log true. */
  lemma WriterKeepsInv(w: Log, ev: Event, v: Log)
    requires Inv(w) && WriterStep(w, ev, v)
    ensures Inv(v)
  {
    WriterKeepsShape(w, ev, v);
    WriterStepFrame(w, ev, v);
    FrameKeepsPins(w, v);
  }

  lemma ReadPageAdvances(w: Log, r: Reader, count: nat)
    requires ReaderOk(w, r) && r.pos.idx + count <= |w.segs[r.pos.seg].items|
    ensures var items := w.segs[r.pos.seg].items;
            ReaderOk(w, r.(pos := r.pos.(idx := r.pos.idx + count),
                           delivered := r.delivered + DataOf(items[r.pos.idx..r.pos.idx + count])))
  {
    var items := w.segs[r.pos.seg].items;
    var page := items[r.pos.idx..r.pos.idx + count];
    DataOfConcat(items[..r.pos.idx], page);
    assert items[..r.pos.idx] + page == items[..r.pos.idx + count];
    var before := AllData(w.segs[..r.pos.seg]);
    var held, more := DataOf(items[..r.pos.idx]), DataOf(page);
    assert DataTo(w.segs, r.start) + (r.delivered + more) == (DataTo(w.segs, r.start) + r.delivered) + more;
    assert (before + held) + more == before + (held + more);
  }

  lemma DrainedIsNextStart(segs: seq<Segment>, n: nat)
    requires n + 1 < |segs|
    ensures DataTo(segs, Position(n, |segs[n].items|)) == DataTo(segs, Position(n + 1, 0))
  {
    var items := segs[n].items;
    assert items[..|items|] == items;
    assert segs[..n + 1][..n] == segs[..n];
    assert AllData(segs[..n + 1]) == AllData(segs[..n]) + DataOf(items);
    assert segs[n + 1].items[..0] == [];
  }

  /** Whichever way a reader learns where to go from a closed and drained segment, it goes to the next. */
  lemma CrossingIsNext(w: Log, n: nat, target: nat)
    requires w.segs != [] && Shape(w.segs) && PointersName(w.segs) && n <= WriteSeg(w.segs) && w.segs[n].closed
    requires Pointer(target) in w.segs[n].items || target == n + 1
    ensures target == n + 1 && n < WriteSeg(w.segs)
  {
    if Pointer(target) in w.segs[n].items {
      var i :| 0 <= i < |w.segs[n].items| && w.segs[n].items[i] == Pointer(target);
    }
  }

  lemma CrossAdvances(w: Log, id: nat, r: Reader, target: nat)
    requires WriterInv(w) && w.segs != [] && ReaderHeld(w, id, r)
    requires w.segs[r.pos.seg].closed && r.pos.idx == |w.segs[r.pos.seg].items|
    requires Pointer(target) in w.segs[r.pos.seg].items || target == r.pos.seg + 1
    ensures target == r.pos.seg + 1
    ensures ReaderHeld(w, id, r.(pos := Position(target, 0)))
  {
    CrossingIsNext(w, r.pos.seg, target);
    DrainedIsNextStart(w.segs, r.pos.seg);
  }

  /** A reader's standing depends on the segments, the sweep, and its own checkpoint or pin only. */
  lemma ReaderSame(w: Log, v: Log, id: nat, r: Reader)
    requires v.segs == w.segs && v.gone == w.gone && v.plan == w.plan && ReaderHeld(w, id, r)
    requires if id == SEQUENCER then AtOrBefore(v.checkpoint, r.pos) else id in v.pins && v.pins[id] == w.pins[id]
    ensures ReaderHeld(v, id, r)
  {
  }

  lemma HeldSame(w: Log, v: Log, p: Position)
    requires v.segs == w.segs && v.gone == w.gone && v.plan == w.plan && Held(w, p)
    ensures Held(v, p)
  {
  }

  /** The invariant, put together from its parts after a step that leaves the segments and the sweep. */
  lemma Reassemble(w: Log, v: Log)
    requires PinInv(w) && w.segs != []
    requires v == w.(checkpoint := v.checkpoint, readers := v.readers, pins := v.pins, landing := v.landing,
                     pinning := v.pinning, scan := v.scan)
    requires Held(w, v.checkpoint) && ScanOk(v) && RequestsOk(v)
    requires forall id | id in v.pins :: id != SEQUENCER && Held(w, v.pins[id].pos)
    requires forall id | id in v.landing :: id != SEQUENCER && Held(w, v.landing[id])
    requires forall id | id in v.readers :: ReaderHeld(v, id, v.readers[id])
    ensures PinInv(v)
  {
    HeldSame(w, v, v.checkpoint);
    forall id | id in v.pins ensures Held(v, v.pins[id].pos) { HeldSame(w, v, v.pins[id].pos); }
    forall id | id in v.landing ensures Held(v, v.landing[id]) { HeldSame(w, v, v.landing[id]); }
  }

  lemma PutReader(w: Log, id: nat, r: Reader)
    requires PinInv(w) && w.segs != [] && ReaderHeld(w, id, r)
    ensures PinInv(w.(readers := w.readers[id := r]))
  {
    var v := w.(readers := w.readers[id := r]);
    forall x | x in v.readers ensures ReaderHeld(v, x, v.readers[x]) {
      if x != id {
        ReaderSame(w, v, x, w.readers[x]);
      } else {
        ReaderSame(w, v, id, r);
      }
    }
    Reassemble(w, v);
  }

  lemma StartKeepsInv(w: Log, id: nat, at: Position, v: Log)
    requires Inv(w) && ReaderStep(w, StartReader(id, at), v)
    ensures Inv(v)
  {
    assert DataTo(w.segs, at) + [] == DataTo(w.segs, at);
    PutReader(w, id, Reader(at, at, []));
  }

  lemma ReadPageKeepsInv(w: Log, id: nat, count: nat, v: Log)
    requires Inv(w) && ReaderStep(w, ReadPage(id, count), v)
    ensures Inv(v)
  {
    ReaderReads(w, id, w.readers[id], count);
    PutReader(w, id, v.readers[id]);
  }

  lemma ReaderReads(w: Log, id: nat, r: Reader, count: nat)
    requires ReaderHeld(w, id, r) && r.pos.idx + count <= |w.segs[r.pos.seg].items|
    ensures var items := w.segs[r.pos.seg].items;
            ReaderHeld(w, id, r.(pos := r.pos.(idx := r.pos.idx + count),
                                 delivered := r.delivered + DataOf(items[r.pos.idx..r.pos.idx + count])))
  {
    ReadPageAdvances(w, r, count);
  }

  lemma CrossKeepsInv(w: Log, id: nat, target: nat, v: Log)
    requires Inv(w) && ReaderStep(w, Cross(id, target), v)
    ensures Inv(v) && v.readers[id].pos == Position(w.readers[id].pos.seg + 1, 0)
  {
    assert ReaderHeld(w, id, w.readers[id]);
    CrossAdvances(w, id, w.readers[id], target);
    PutReader(w, id, w.readers[id].(pos := Position(target, 0)));
  }

  lemma StopKeepsInv(w: Log, id: nat, v: Log)
    requires Inv(w) && ReaderStep(w, StopReader(id), v)
    ensures Inv(v)
  {
    if w.segs == [] {
      assert v == w;
    } else {
      assert Held(w, w.checkpoint);
      forall x | x in v.readers ensures ReaderHeld(v, x, v.readers[x]) {
        ReaderSame(w, v, x, w.readers[x]);
      }
      Reassemble(w, v);
    }
  }

  lemma ReaderKeepsInv(w: Log, ev: Event, v: Log)
    requires Inv(w) && ReaderStep(w, ev, v)
    ensures Inv(v)
  {
    match ev
    case StartReader(id, at) => StartKeepsInv(w, id, at, v);
    case ReadPage(id, count) => ReadPageKeepsInv(w, id, count, v);
    case Cross(id, target) => CrossKeepsInv(w, id, target, v);
    case StopReader(id) => StopKeepsInv(w, id, v);
  }

  /** The readers of a state in which only pins, captures or the checkpoint moved. */
  lemma ReadersSame(w: Log, v: Log)
    requires v.segs == w.segs && v.gone == w.gone && v.plan == w.plan
    requires forall id | id in v.readers ::
               && id in w.readers && v.readers[id] == w.readers[id] && ReaderHeld(w, id, w.readers[id])
               && if id == SEQUENCER then AtOrBefore(v.checkpoint, v.readers[id].pos)
                  else id in v.pins && v.pins[id] == w.pins[id]
    ensures forall id | id in v.readers :: ReaderHeld(v, id, v.readers[id])
  {
    forall id | id in v.readers ensures ReaderHeld(v, id, v.readers[id]) {
      ReaderSame(w, v, id, w.readers[id]);
    }
  }

  /** Setting a pin that is held, and that the reader replaying for it has not fallen behind of. */
  lemma PutPin(w: Log, id: nat, p: Pin, v: Log)
    requires PinInv(w) && w.segs != [] && id != SEQUENCER && Held(w, p.pos)
    requires id in w.readers ==> !p.evictable && AtOrBefore(p.pos, w.readers[id].pos)
    requires v == w.(pins := w.pins[id := p], pinning := v.pinning, scan := v.scan)
    requires ScanOk(v) && RequestsOk(v)
    ensures PinInv(v)
  {
    assert Held(w, w.checkpoint);
    forall x | x in v.readers ensures ReaderHeld(v, x, v.readers[x]) {
      if x != id {
        ReaderSame(w, v, x, w.readers[x]);
      } else {
        assert ReaderHeld(w, x, w.readers[x]);
      }
    }
    Reassemble(w, v);
  }

  lemma DropPin(w: Log, id: nat)
    requires PinInv(w) && w.segs != [] && id != SEQUENCER
    ensures PinInv(w.(pins := w.pins - {id}, readers := w.readers - {id}))
  {
    var v := w.(pins := w.pins - {id}, readers := w.readers - {id});
    assert Held(w, w.checkpoint);
    ReadersSame(w, v);
    Reassemble(w, v);
  }

  lemma ScanSame(w: Log, v: Log)
    requires ScanOk(w) && v.scan == w.scan && v.pins == w.pins && AtOrBefore(w.checkpoint, v.checkpoint)
    ensures ScanOk(v)
  {
  }

  lemma RequestsSame(w: Log, v: Log)
    requires RequestsOk(w) && v.pinning == w.pinning && v.segs == w.segs
    ensures RequestsOk(v)
  {
  }

  lemma CheckpointKeepsInv(w: Log, at: Position, v: Log)
    requires Inv(w) && PinStep(w, Checkpoint(SEQUENCER, at), v)
    ensures Inv(v)
  {
    assert ReaderHeld(w, SEQUENCER, w.readers[SEQUENCER]);
    assert Held(w, w.checkpoint);
    ScanSame(w, v);
    RequestsSame(w, v);
    ReadersSame(w, v);
    Reassemble(w, v);
  }

  lemma PutLanding(w: Log, id: nat, pos: Position)
    requires PinInv(w) && w.segs != [] && id != SEQUENCER && Held(w, pos)
    ensures PinInv(w.(landing := w.landing[id := pos]))
  {
    var v := w.(landing := w.landing[id := pos]);
    assert Held(w, w.checkpoint);
    ScanSame(w, v);
    RequestsSame(w, v);
    ReadersSame(w, v);
    Reassemble(w, v);
  }

  lemma CaptureKeepsInv(w: Log, id: nat, v: Log)
    requires Inv(w) && PinStep(w, Capture(id, SEQUENCER), v)
    ensures Inv(v)
  {
    assert ReaderHeld(w, SEQUENCER, w.readers[SEQUENCER]);
    PutLanding(w, id, w.readers[SEQUENCER].pos);
  }

  lemma LandedIsLate(w: Log, v: Log, id: nat)
    requires ScanOk(w) && v.scan == Late(w.scan, id) && v.checkpoint == w.checkpoint
    requires forall x | x in v.pins && x != id :: x in w.pins && v.pins[x] == w.pins[x]
    ensures ScanOk(v)
  {
  }

  lemma LandKeepsInv(w: Log, id: nat, v: Log)
    requires Inv(w) && PinStep(w, Land(id), v)
    ensures Inv(v)
  {
    assert Held(w, w.checkpoint) && Held(w, w.landing[id]);
    assert id in w.readers ==> ReaderHeld(w, id, w.readers[id]);
    LandedIsLate(w, v, id);
    RequestsSame(w, v);
    ReadersSame(w, v);
    Reassemble(w, v);
  }

  /** A request comes into force: well exactly if nothing at or above its position is deleted or doomed. */
  lemma PinLandKeepsInvIff(w: Log, req: nat, v: Log)
    requires Inv(w) && PinStep(w, PinLand(req), v)
    ensures Inv(v) <==> Safe(w, w.pinning[req].pos)
  {
    var id, pos := w.pinning[req].consumer, w.pinning[req].pos;
    assert id in w.readers ==> ReaderHeld(w, id, w.readers[id]);
    LandedIsLate(w, v, id);
    if Safe(w, pos) {
      PutPin(w, id, Pin(pos, true), v);
    } else {
      assert Inv(v) ==> Held(v, v.pins[id].pos);
    }
  }

  lemma ReactivateKeepsInv(w: Log, id: nat, v: Log)
    requires Inv(w) && PinStep(w, Reactivate(id), v)
    ensures Inv(v)
  {
    assert Held(w, w.pins[id].pos);
    assert id in w.readers ==> ReaderHeld(w, id, w.readers[id]);
    PutPin(w, id, w.pins[id].(evictable := false), v);
  }

  lemma EvictKeepsInv(w: Log, id: nat, v: Log)
    requires Inv(w) && PinStep(w, Evict(id), v)
    ensures Inv(v)
  {
    assert id in w.readers ==> ReaderHeld(w, id, w.readers[id]);
    assert w.readers - {id} == w.readers;
    DropPin(w, id);
  }

  lemma PinKeepsInv(w: Log, ev: Event, v: Log)
    requires Inv(w) && PinStep(w, ev, v) && !ev.PinLand?
    ensures Inv(v)
  {
    match ev
    case Checkpoint(id, at) => CheckpointKeepsInv(w, at, v);
    case Capture(id, reader) => CaptureKeepsInv(w, id, v);
    case Land(id) => LandKeepsInv(w, id, v);
    case PinCheck(req, id, at) => RequestKeepsInv(w, req, v);
    case Reactivate(id) => ReactivateKeepsInv(w, id, v);
    case Release(id) => DropPin(w, id);
    case Evict(id) => EvictKeepsInv(w, id, v);
  }

  lemma RequestKeepsInv(w: Log, req: nat, v: Log)
    requires Inv(w) && w.writer.Up? && req !in w.pinning
    requires v == w.(pinning := v.pinning) && RequestsOk(v)
    ensures Inv(v)
  {
    assert Held(w, w.checkpoint);
    ReadersSame(w, v);
    Reassemble(w, v);
  }

  /** A step of the sweep that leaves what is deleted and doomed as it was. */
  lemma ScanKeepsInv(w: Log, v: Log)
    requires Inv(w) && w.segs != [] && v == w.(scan := v.scan) && ScanOk(v)
    ensures Inv(v)
  {
    assert Held(w, w.checkpoint);
    ReadersSame(w, v);
    Reassemble(w, v);
  }

  /** Taking a set of segments that is below every held position out of the log's promises. */
  lemma SweepBelow(w: Log, v: Log)
    requires PinInv(w) && w.segs != []
    requires v == w.(gone := v.gone, plan := v.plan, scan := v.scan) && SweepOk(v) && ScanOk(v)
    requires Safe(v, w.checkpoint)
    requires forall id | id in w.pins :: Safe(v, w.pins[id].pos)
    requires forall id | id in w.landing :: Safe(v, w.landing[id])
    ensures PinInv(v)
  {
    forall x | x in v.readers ensures ReaderHeld(v, x, v.readers[x]) {
      assert ReaderHeld(w, x, w.readers[x]);
      assert Safe(v, w.readers[x].pos);
    }
  }

  /** What a sweep found may be deleted: the catalog has recorded a later segment, and the pins that came
      while the sweep was reading are above it too. */
  ghost predicate LatePinsAbove(w: Log)
    requires w.scan.FloorRead?
  {
    && (forall n | n in w.scan.candidates :: w.recorded.Some? && n < w.recorded.value)
    && (forall id, n | id in w.scan.late && id in w.pins && n in w.scan.candidates :: n < w.pins[id].pos.seg)
  }

  /** The sweep's decision is right exactly under that condition, or if it is put off. */
  lemma CheckKeepsInvIff(w: Log, v: Log)
    requires Inv(w) && SweepStep(w, CheckLanding, v)
    ensures Inv(v) <==> w.landing != map[] || LatePinsAbove(w)
  {
    assert w.segs != [] && Held(w, w.checkpoint);
    if w.landing != map[] {
      ScanKeepsInv(w, v);
    } else {
      if LatePinsAbove(w) {
        SweepBelow(w, v);
      }
      DecidedIsBelowPins(w, v);
    }
  }

  lemma DecidedIsBelowPins(w: Log, v: Log)
    requires SweepStep(w, CheckLanding, v) && w.landing == map[]
    ensures Inv(v) ==> LatePinsAbove(w)
  {
    forall id | Inv(v) && id in v.pins ensures Held(v, v.pins[id].pos) {
    }
  }

  lemma SweepKeepsInv(w: Log, ev: Event, v: Log)
    requires Inv(w) && SweepStep(w, ev, v) && !ev.CheckLanding?
    ensures Inv(v)
  {
    match ev
    case ReadPins => ScanKeepsInv(w, v);
    case ReadFloor(known, current) =>
      forall id, n | id in v.pins && id !in v.scan.late && n in v.scan.candidates
        ensures n < v.pins[id].pos.seg
      {
        assert n < w.scan.seen[id];
      }
      ScanKeepsInv(w, v);
    case Delete(n) => SweepBelow(w, v);
  }

  /** What keeps a step from harm, read off the state before it. Only two steps can do harm: a sweep's
      decision, and a consumer's pin coming into force. */
  ghost predicate Guard(w: Log, ev: Event) {
    match ev
    case CheckLanding => w.scan.FloorRead? && (w.landing != map[] || LatePinsAbove(w))
    case PinLand(req) => req in w.pinning && Safe(w, w.pinning[req].pos)
    case _ => true
  }

  /** A pin at or past the durable checkpoint always comes into force well. */
  lemma PinAtCheckpointIsGuarded(w: Log, req: nat)
    requires Inv(w) && req in w.pinning && w.checkpoint.seg <= w.pinning[req].pos.seg
    ensures Guard(w, PinLand(req))
  {
    assert w.segs != [] ==> Held(w, w.checkpoint);
  }

  /** Each step keeps the invariant exactly under its guard. */
  lemma StepKeepsInvIff(w: Log, ev: Event, v: Log)
    requires Inv(w) && Next(w, ev, v)
    ensures Inv(v) <==> Guard(w, ev)
  {
    if WriterStep(w, ev, v) {
      WriterKeepsInv(w, ev, v);
    } else if ReaderStep(w, ev, v) {
      ReaderKeepsInv(w, ev, v);
    } else if PinStep(w, ev, v) {
      if ev.PinLand? {
        PinLandKeepsInvIff(w, ev.req, v);
      } else {
        PinKeepsInv(w, ev, v);
      }
    } else if ev.CheckLanding? {
      CheckKeepsInvIff(w, v);
    } else {
      SweepKeepsInv(w, ev, v);
    }
  }

  ghost predicate RunStep(run: seq<Log>, events: seq<Event>, i: nat) {
    i < |events| && i + 1 < |run| && Next(run[i], events[i], run[i + 1])
  }

  /** Any run of the machine. */
  ghost predicate FreeRun(run: seq<Log>, events: seq<Event>) {
    && |run| == |events| + 1 && Init(run[0])
    && forall i | 0 <= i < |events| :: RunStep(run, events, i)
  }

  /** A run in which no step is taken against its guard. */
  ghost predicate Run(run: seq<Log>, events: seq<Event>) {
    FreeRun(run, events) && forall i | 0 <= i < |events| :: Guard(run[i], events[i])
  }

  lemma RunPrefix(run: seq<Log>, events: seq<Event>)
    requires Run(run, events) && events != []
    ensures Run(run[..|events|], events[..|events| - 1])
  {
    var r, e := run[..|events|], events[..|events| - 1];
    forall i | 0 <= i < |e| ensures RunStep(r, e, i) && Guard(r[i], e[i]) {
      assert RunStep(run, events, i) && Guard(run[i], events[i]);
    }
  }

  lemma {:induction false} RunKeepsInv(run: seq<Log>, events: seq<Event>)
    requires Run(run, events)
    ensures Inv(run[|events|])
    decreases |events|
  {
    if events != [] {
      var n := |events| - 1;
      RunPrefix(run, events);
      RunKeepsInv(run[..n + 1], events[..n]);
      assert RunStep(run, events, n) && Guard(run[n], events[n]);
      StepKeepsInvIff(run[n], events[n], run[n + 1]);
    }
  }

  // ---- What holds in every run --------------------------------------------------------------------

  lemma {:induction false} AllDataPrefix(s: seq<Segment>, n: nat)
    requires n <= |s|
    ensures AllData(s[..n]) <= AllData(s)
    decreases |s|
  {
    if n < |s| {
      AllDataPrefix(s[..|s| - 1], n);
      assert s[..|s| - 1][..n] == s[..n];
    } else {
      assert s[..n] == s;
    }
  }

  lemma DataToIsPrefix(s: seq<Segment>, p: Position)
    requires InLog(s, p)
    ensures DataTo(s, p) <= AllData(s)
  {
    var items := s[p.seg].items;
    DataOfConcat(items[..p.idx], items[p.idx..]);
    assert items == items[..p.idx] + items[p.idx..];
    assert s[..p.seg + 1][..p.seg] == s[..p.seg];
    assert AllData(s[..p.seg + 1]) == AllData(s[..p.seg]) + DataOf(items);
    AllDataPrefix(s, p.seg + 1);
  }

  /** In every run - failed closes that leave extra pointers, crashes, boots, deletions - what a reader has
      delivered is exactly the log's changes from where it started to where it stands: none skipped, none
      repeated, none out of order, no control envelope. From the beginning, that is a prefix of the log. */
  lemma DeliveredIsExact(run: seq<Log>, events: seq<Event>, id: nat)
    requires Run(run, events) && id in run[|events|].readers
    ensures var w := run[|events|]; var r := w.readers[id];
            && InLog(w.segs, r.start) && InLog(w.segs, r.pos)
            && DataTo(w.segs, r.start) + r.delivered == DataTo(w.segs, r.pos) <= AllData(w.segs)
            && (r.start == Position(0, 0) ==> r.delivered <= AllData(w.segs))
  {
    RunKeepsInv(run, events);
    var w := run[|events|];
    var r := w.readers[id];
    assert ReaderHeld(w, id, r);
    DataToIsPrefix(w.segs, r.pos);
    NothingBeforeTheStart(w.segs);
  }

  lemma NothingBeforeTheStart(s: seq<Segment>)
    ensures s != [] ==> DataTo(s, Position(0, 0)) == []
  {
    if s != [] {
      assert s[..0] == [] && s[0].items[..0] == [];
    }
  }

  /** A reader is never left without its segment or without a way on: its segment is stored, and once that
      is closed so is the next one. */
  lemma ReaderCanGoOn(run: seq<Log>, events: seq<Event>, id: nat)
    requires Run(run, events) && id in run[|events|].readers
    ensures var w := run[|events|]; var n := w.readers[id].pos.seg;
            Exists(w, n) && (w.segs[n].closed ==> Exists(w, n + 1))
  {
    RunKeepsInv(run, events);
    var w := run[|events|];
    assert ReaderHeld(w, id, w.readers[id]);
  }

  /** At every point of every run: the segments below the write segment are closed, it alone is open to
      commits, at most its empty successor is above it, pointers name the next segment; and the boot walk
      from whatever the catalog has recorded - possibly several rotations behind - ends exactly there. */
  lemma RotationIsCrashSafe(run: seq<Log>, events: seq<Event>)
    requires Run(run, events) && run[|events|].segs != []
    ensures var w := run[|events|]; var n := WriteSeg(w.segs);
            && (forall i | 0 <= i < n :: w.segs[i].closed) && !w.segs[n].closed
            && (n + 1 < |w.segs| ==> |w.segs| == n + 2 && w.segs[n + 1] == Segment([], false))
            && PointersName(w.segs)
            && var from := if w.recorded.Some? then w.recorded.value else 0;
               ResolveCurrent(HeadsOf(w), from, w.recorded.Some?)
               == if n - from < MAX_WALK then Ok(n) else Err(TooLong)
  {
    RunKeepsInv(run, events);
    var w := run[|events|];
    ResolveFindsWriteSeg(w, if w.recorded.Some? then w.recorded.value else 0, w.recorded.Some?);
  }

  lemma LastIsEmpty(segs: seq<Segment>)
    requires segs != [] && Shape(segs)
    ensures AllData(segs) == AllData(segs[..WriteSeg(segs)]) + DataOf(segs[WriteSeg(segs)].items)
  {
    var n := WriteSeg(segs);
    assert segs[..n + 1][..n] == segs[..n];
    assert AllData(segs[..n + 1]) == AllData(segs[..n]) + DataOf(segs[n].items);
    if n + 1 < |segs| {
      assert segs[..|segs| - 1] == segs[..n + 1];
      assert DataOf(segs[n + 1].items) == [];
    } else {
      assert segs[..n + 1] == segs;
    }
  }

  lemma AddedAtEnd(segs: seq<Segment>, data: seq<int>)
    requires segs != [] && Shape(segs)
    ensures AllData(AddItems(segs, WriteSeg(segs), ToItems(data))) == AllData(segs) + data
  {
    var n := WriteSeg(segs);
    var t := AddItems(segs, n, ToItems(data));
    AddItemsGrows(segs, ToItems(data));
    LastIsEmpty(segs);
    LastIsEmpty(t);
    DataOfConcat(segs[n].items, ToItems(data));
    DataOfToItems(data);
    assert t[..n] == segs[..n];
  }

  /** A commit lands on the write segment and nowhere else, after everything already in the log. */
  lemma CommitsLandOnWriteSeg(w: Log, data: seq<int>, v: Log)
    requires Inv(w) && WriterStep(w, Commit(data), v)
    ensures v.segs == AddItems(w.segs, WriteSeg(w.segs), ToItems(data))
    ensures AllData(v.segs) == AllData(w.segs) + data
  {
    AddedAtEnd(w.segs, data);
  }

  lemma {:induction false} DataOfToItems(data: seq<int>)
    ensures DataOf(ToItems(data)) == data
  {
    if data != [] {
      assert ToItems(data)[1..] == ToItems(data[1..]);
      DataOfToItems(data[1..]);
    }
  }

  /** A step that deletes a segment deletes one below the checkpoint, the write segment, the segment the
      catalog records, every pin, and every position on its way to becoming one. */
  lemma DeletionIsSafe(run: seq<Log>, events: seq<Event>, ev: Event, v: Log, n: nat)
    requires Run(run, events) && Next(run[|events|], ev, v)
    requires n in v.gone && n !in run[|events|].gone
    ensures var w := run[|events|];
            && n < w.checkpoint.seg && w.segs != [] && n < WriteSeg(w.segs)
            && w.recorded.Some? && n < w.recorded.value
            && (forall id | id in w.pins :: n < w.pins[id].pos.seg)
            && (forall id | id in w.landing :: n < w.landing[id].seg)
  {
    RunKeepsInv(run, events);
    OnlyPlannedDeleted(run[|events|], ev, v, n);
    PlannedIsSafe(run[|events|], n);
  }

  lemma OthersDeleteNothing(w: Log, ev: Event, v: Log)
    ensures WriterStep(w, ev, v) ==> v.gone == w.gone
    ensures ReaderStep(w, ev, v) ==> v.gone == w.gone
    ensures PinStep(w, ev, v) ==> v.gone == w.gone
  {
  }

  lemma OnlyPlannedDeleted(w: Log, ev: Event, v: Log, n: nat)
    requires Next(w, ev, v) && n in v.gone && n !in w.gone
    ensures n in w.plan
  {
    OthersDeleteNothing(w, ev, v);
  }

  lemma PlannedIsSafe(w: Log, n: nat)
    requires Inv(w) && n in w.plan
    ensures n < w.checkpoint.seg && w.segs != [] && n < WriteSeg(w.segs)
    ensures w.recorded.Some? && n < w.recorded.value
    ensures forall id | id in w.pins :: n < w.pins[id].pos.seg
    ensures forall id | id in w.landing :: n < w.landing[id].seg
  {
    assert Held(w, w.checkpoint);
    forall id | id in w.pins ensures n < w.pins[id].pos.seg { assert Held(w, w.pins[id].pos); }
    forall id | id in w.landing ensures n < w.landing[id].seg { assert Held(w, w.landing[id]); }
  }

  /** A pin that a replay is using leaves only by that replay's end, never by eviction. */
  lemma ReplayingPinStays(run: seq<Log>, events: seq<Event>, ev: Event, v: Log, id: nat)
    requires Run(run, events) && Next(run[|events|], ev, v)
    requires id in run[|events|].pins && !run[|events|].pins[id].evictable
    ensures ev != Evict(id)
    ensures id !in v.pins ==> ev == Release(id)
    ensures id in v.pins ==> v.pins[id] == run[|events|].pins[id]
  {
  }

  /** In every run, from the checkpoint and from every surviving pin, every segment up to the write segment
      is still stored. */
  lemma HeldPositionsCanReplay(run: seq<Log>, events: seq<Event>, n: nat)
    requires Run(run, events) && run[|events|].segs != [] && n <= WriteSeg(run[|events|].segs)
    ensures var w := run[|events|];
            && (w.checkpoint.seg <= n ==> Exists(w, n))
            && (forall id | id in w.pins && w.pins[id].pos.seg <= n :: Exists(w, n))
  {
    RunKeepsInv(run, events);
    var w := run[|events|];
    assert Held(w, w.checkpoint);
    forall id | id in w.pins && w.pins[id].pos.seg <= n
      ensures Exists(w, n)
    {
      assert Held(w, w.pins[id].pos);
    }
  }

  // ---- What happens against the guards ------------------------------------------------------------

  /** The walk from a recorded segment succeeds exactly while every segment from there to the write segment
      is stored, as far as its bound allows. */
  lemma BootNeedsRecordedSegment(w: Log)
    requires w.segs != [] && Shape(w.segs) && w.recorded.Some? && w.recorded.value <= WriteSeg(w.segs)
    requires WriteSeg(w.segs) - w.recorded.value < MAX_WALK
    ensures ResolveCurrent(HeadsOf(w), w.recorded.value, true).Ok?
            <==> forall n | w.recorded.value <= n <= WriteSeg(w.segs) :: n !in w.gone
  {
    WalkNeedsSegments(w, w.recorded.value, w.recorded.value, MAX_WALK);
  }

  lemma {:induction false} WalkNeedsSegments(w: Log, from: nat, cur: nat, fuel: nat)
    requires w.segs != [] && Shape(w.segs) && cur <= WriteSeg(w.segs) && WriteSeg(w.segs) - cur < fuel
    requires cur != from ==> cur !in w.gone
    ensures Walk(HeadsOf(w), from, cur, true, fuel).Ok? <==> forall n | cur <= n <= WriteSeg(w.segs) :: n !in w.gone
    decreases fuel
  {
    if cur !in w.gone && cur < WriteSeg(w.segs) {
      assert w.segs[cur].closed;
      if cur + 1 !in w.gone {
        WalkNeedsSegments(w, from, cur + 1, fuel - 1);
      }
    }
  }

  lemma Extend(run: seq<Log>, events: seq<Event>, ev: Event, v: Log) returns (r: seq<Log>, e: seq<Event>)
    requires FreeRun(run, events) && Next(run[|events|], ev, v)
    ensures FreeRun(r, e) && r[|e|] == v
  {
    r, e := run + [v], events + [ev];
    forall i | 0 <= i < |e| ensures RunStep(r, e, i) {
      if i < |events| {
        assert RunStep(run, events, i);
      }
    }
  }

  /** After the first rotation, with the catalog at `recorded`. */
  function Rotated(recorded: nat): Log {
    Log([Segment([Pointer(1)], true), Segment([], false)], {}, Some(recorded), Up(1, Resting),
        Position(0, 0), map[], map[], map[], map[], NoScan, {})
  }

  lemma ReachFirstSegment() returns (run: seq<Log>, events: seq<Event>)
    ensures FreeRun(run, events)
    ensures run[|events|] == Log([Segment([], false)], {}, Some(0), Up(0, Resting),
                                 Position(0, 0), map[], map[], map[], map[], NoScan, {})
  {
    var w := Log([], {}, None, Down, Position(0, 0), map[], map[], map[], map[], NoScan, {});
    run, events := [w], [];
    assert HeadsOf(w)(0).None? && ResolveCurrent(HeadsOf(w), 0, false) == Ok(0);
    w := w.(segs := [Segment([], false)], writer := Up(0, Resting));
    run, events := Extend(run, events, Boot, w);
    run, events := Extend(run, events, Record(0), w.(recorded := Some(0)));
  }

  lemma ReachRotated() returns (run: seq<Log>, events: seq<Event>)
    ensures FreeRun(run, events) && run[|events|] == Rotated(0)
  {
    run, events := ReachFirstSegment();
    var w := run[|events|].(segs := [Segment([], false), Segment([], false)], writer := Up(0, Created));
    run, events := Extend(run, events, CreateSuccessor, w);
    w := w.(segs := AddItems(w.segs, 0, [Pointer(1)]), writer := Up(0, Pointed));
    var nothing: seq<Item> := [];
    assert nothing + [Pointer(1)] == [Pointer(1)];
    assert w.segs == [Segment([Pointer(1)], false), Segment([], false)];
    run, events := Extend(run, events, AppendPointer, w);
    w := w.(segs := [Segment([Pointer(1)], true), Segment([], false)], writer := Up(0, Closed));
    run, events := Extend(run, events, CloseSegment, w);
    run, events := Extend(run, events, Began, w.(writer := Up(1, Resting)));
  }

  /** The sequencer crosses into segment 1 and checkpoints there. */
  function Crossed(w: Log): Log {
    w.(readers := w.readers[SEQUENCER := Reader(Position(0, 0), Position(1, 0), [])], checkpoint := Position(1, 0))
  }

  lemma ReachCrossed(run0: seq<Log>, events0: seq<Event>) returns (run: seq<Log>, events: seq<Event>)
    requires FreeRun(run0, events0)
    requires var w := run0[|events0|];
             && w.segs == Rotated(0).segs && w.gone == {} && w.checkpoint == Position(0, 0)
             && w.readers == map[SEQUENCER := Reader(Position(0, 0), Position(0, 0), [])]
    ensures FreeRun(run, events) && run[|events|] == Crossed(run0[|events0|])
  {
    var w := run0[|events0|];
    assert w.segs[0].items[0..1] == [Pointer(1)] && DataOf([Pointer(1)]) == [];
    var r := Reader(Position(0, 0), Position(0, 1), []);
    w := w.(readers := w.readers[SEQUENCER := r]);
    run, events := Extend(run0, events0, ReadPage(SEQUENCER, 1), w);
    assert Pointer(1) == w.segs[0].items[0];
    w := w.(readers := w.readers[SEQUENCER := r.(pos := Position(1, 0))]);
    run, events := Extend(run, events, Cross(SEQUENCER, 1), w);
    run, events := Extend(run, events, Checkpoint(SEQUENCER, Position(1, 0)), w.(checkpoint := Position(1, 0)));
  }

  lemma ReachReading(recorded: nat) returns (run: seq<Log>, events: seq<Event>)
    requires recorded <= 1
    ensures FreeRun(run, events)
    ensures run[|events|] == Rotated(recorded).(readers := map[SEQUENCER := Reader(Position(0, 0), Position(0, 0), [])])
  {
    run, events := ReachRotated();
    if recorded == 1 {
      run, events := Extend(run, events, Record(1), Rotated(1));
    }
    var w := Rotated(recorded);
    run, events := Extend(run, events, StartReader(SEQUENCER, Position(0, 0)),
                          w.(readers := map[SEQUENCER := Reader(Position(0, 0), Position(0, 0), [])]));
  }

  /** A sweep that read no pins finds segment 0 deletable. */
  lemma ReachFloorRead(run0: seq<Log>, events0: seq<Event>) returns (run: seq<Log>, events: seq<Event>)
    requires FreeRun(run0, events0)
    requires var w := run0[|events0|];
             w.scan == PinsRead(map[], {}) && w.writer == Up(1, Resting) && w.checkpoint == Position(1, 0)
    ensures FreeRun(run, events) && run[|events|] == run0[|events0|].(scan := FloorRead({0}, {}))
  {
    var w := run0[|events0|];
    assert BelowFloor(w, {0}, 1, w.scan.seen, 0) && Candidates(w, {0}, 1, w.scan.seen) == {0};
    var v := w.(scan := FloorRead(Candidates(w, {0}, 1, w.scan.seen), w.scan.late));
    run, events := Extend(run0, events0, ReadFloor({0}, 1), v);
  }

  /** And deletes it. */
  lemma ReachDeleted(run0: seq<Log>, events0: seq<Event>) returns (run: seq<Log>, events: seq<Event>)
    requires FreeRun(run0, events0)
    requires var w := run0[|events0|];
             w.scan.FloorRead? && w.scan.candidates == {0} && w.landing == map[] && w.gone == {}
    ensures FreeRun(run, events) && run[|events|] == run0[|events0|].(scan := NoScan, plan := {}, gone := {0})
  {
    var w := run0[|events0|].(scan := NoScan, plan := {0});
    run, events := Extend(run0, events0, CheckLanding, w);
    run, events := Extend(run, events, Delete(0), w.(plan := {}, gone := {0}));
  }

  lemma ReachCaptured() returns (run: seq<Log>, events: seq<Event>)
    ensures FreeRun(run, events)
    ensures var w := run[|events|];
            && w.scan == PinsRead(map[], {}) && w.writer == Up(1, Resting) && w.checkpoint == Position(1, 0)
            && w.landing == map[2 := Position(0, 0)] && w.gone == {} && w.pins == map[]
  {
    run, events := ReachReading(1);
    var w := run[|events|].(landing := map[2 := Position(0, 0)]);
    run, events := Extend(run, events, Capture(2, SEQUENCER), w);
    run, events := Extend(run, events, ReadPins, w.(scan := PinsRead(map[], {})));
    run, events := ReachCrossed(run, events);
  }

  /** A shape captured before a sweep read the pins becomes a pin only after: the sweep sees it neither as
      a pin nor as being parked, and deletes the segment it will replay from. */
  lemma ParkedDuringSweepLosesSegment() returns (run: seq<Log>, events: seq<Event>)
    ensures FreeRun(run, events)
    ensures 2 in run[|events|].pins && run[|events|].pins[2].pos.seg in run[|events|].gone
  {
    run, events := ReachCaptured();
    run, events := ReachFloorRead(run, events);
    var w := run[|events|];
    assert w.landing - {2} == map[];
    var v := w.(landing := w.landing - {2}, pins := w.pins[2 := Pin(w.landing[2], true)], scan := Late(w.scan, 2));
    run, events := Extend(run, events, Land(2), v);
    run, events := ReachDeleted(run, events);
  }

  lemma ReachRequested() returns (run: seq<Log>, events: seq<Event>)
    ensures FreeRun(run, events)
    ensures var w := run[|events|];
            && w.scan == PinsRead(map[], {}) && w.writer == Up(1, Resting) && w.checkpoint == Position(1, 0)
            && w.pinning == map[7 := PinRequest(2, Position(0, 0))]
            && w.landing == map[] && w.gone == {} && w.pins == map[]
  {
    run, events := ReachReading(1);
    var w := run[|events|].(pinning := map[7 := PinRequest(2, Position(0, 0))]);
    run, events := Extend(run, events, PinCheck(7, 2, Position(0, 0)), w);
    run, events := Extend(run, events, ReadPins, w.(scan := PinsRead(map[], {})));
    run, events := ReachCrossed(run, events);
  }

  /** A consumer's pin, accepted while its segment was known, comes into force on a deleted segment. */
  lemma PinnedDuringSweepLosesSegment() returns (run: seq<Log>, events: seq<Event>)
    ensures FreeRun(run, events)
    ensures 2 in run[|events|].pins && run[|events|].pins[2].pos.seg in run[|events|].gone
  {
    run, events := ReachRequested();
    run, events := ReachFloorRead(run, events);
    run, events := ReachDeleted(run, events);
    var w := run[|events|];
    var v := w.(pinning := w.pinning - {7}, pins := w.pins[2 := Pin(Position(0, 0), true)], scan := Late(w.scan, 2));
    run, events := Extend(run, events, PinLand(7), v);
  }

  /** A sweep between the writer's switch and its catalog record, and then a crash: no boot succeeds. */
  lemma SweptBeforeRecordRefusesBoot() returns (run: seq<Log>, events: seq<Event>)
    ensures FreeRun(run, events) && run[|events|].writer.Down?
    ensures forall v :: !Next(run[|events|], Boot, v)
  {
    run, events := ReachReading(0);
    run, events := Extend(run, events, ReadPins, run[|events|].(scan := PinsRead(map[], {})));
    run, events := ReachCrossed(run, events);
    run, events := ReachFloorRead(run, events);
    run, events := ReachDeleted(run, events);
    var w := run[|events|].(writer := Down, readers := map[], landing := map[], pinning := map[], scan := NoScan, plan := {});
    run, events := Extend(run, events, Crash, w);
    assert HeadsOf(w)(0).None? && ResolveCurrent(HeadsOf(w), 0, true) == Err(Missing(0));
  }
}
