/**
 Coalescing of concurrent live requests at one handle: the first arrival at an offset leads and runs the
 read, later arrivals wait for its published result, and a leader that vanishes makes way for another.
 The map of in-flight slots is edited under its own short lock; everything between two such edits, a
 publication, or a wake-up may interleave.
 */
module Coalesce {
  import opened Basics

  type TaskId = nat
  type ChanId = nat

  /** Where a request stands. A leader that has published, or was cancelled, first leaves the map and then
      drops its sender; both happen before its task ends. */
  datatype State =
    | Arriving
    | Leading(ch: ChanId)
    | Sent(ch: ChanId)
    | Dropping(ch: ChanId)
    | Waiting(ch: ChanId)
    | Done(ch: ChanId, result: int)
    | Cancelled

  datatype Task = Task(offset: string, st: State)

  /** A watch channel: its value once published, and whether its sender still exists. */
  datatype Chan = Chan(offset: string, leader: TaskId, value: Option<int>, open: bool)

  datatype World = World(
    tasks: map<TaskId, Task>,
    chans: seq<Chan>,
    inflight: map<string, ChanId>,
    published: set<(TaskId, string, int)>)

  datatype Event =
    | Arrive(t: TaskId, offset: string)
    | Elect(t: TaskId)
    | Publish(t: TaskId, result: int)
    | Unregister(t: TaskId)
    | DropSender(t: TaskId)
    | Take(t: TaskId)
    | Reelect(t: TaskId)
    | Cancel(t: TaskId)

  function SetTask(w: World, t: TaskId, st: State): World
    requires t in w.tasks
  {
    w.(tasks := w.tasks[t := w.tasks[t].(st := st)])
  }

  ghost predicate Next(w: World, ev: Event, v: World) {
    match ev
    case Arrive(t, offset) => t !in w.tasks && v == w.(tasks := w.tasks[t := Task(offset, Arriving)])
    case Elect(t) =>
      && t in w.tasks && w.tasks[t].st.Arriving?
      && var o := w.tasks[t].offset;
         if o in w.inflight then v == SetTask(w, t, Waiting(w.inflight[o]))
         else
           var ch := |w.chans|;
           v == SetTask(w, t, Leading(ch)).(chans := w.chans + [Chan(o, t, None, true)], inflight := w.inflight[o := ch])
    case Publish(t, result) =>
      && t in w.tasks && w.tasks[t].st.Leading? && w.tasks[t].st.ch < |w.chans|
      && var ch := w.tasks[t].st.ch;
         v == SetTask(w, t, Sent(ch)).(
                chans := w.chans[ch := w.chans[ch].(value := Some(result))],
                published := w.published + {(t, w.tasks[t].offset, result)})
    case Unregister(t) =>
      && t in w.tasks && w.tasks[t].st.Sent?
      && v == SetTask(w, t, Dropping(w.tasks[t].st.ch)).(inflight := w.inflight - {w.tasks[t].offset})
    case DropSender(t) =>
      && t in w.tasks && w.tasks[t].st.Dropping? && w.tasks[t].st.ch < |w.chans|
      && var ch := w.tasks[t].st.ch;
         v == SetTask(w, t, if w.chans[ch].value.Some? then Done(ch, w.chans[ch].value.value) else Cancelled)
              .(chans := w.chans[ch := w.chans[ch].(open := false)])
    case Take(t) =>
      && t in w.tasks && w.tasks[t].st.Waiting? && w.tasks[t].st.ch < |w.chans|
      && var ch := w.tasks[t].st.ch;
         w.chans[ch].value.Some? && v == SetTask(w, t, Done(ch, w.chans[ch].value.value))
    case Reelect(t) =>
      && t in w.tasks && w.tasks[t].st.Waiting? && w.tasks[t].st.ch < |w.chans|
      && var ch := w.tasks[t].st.ch;
         w.chans[ch].value.None? && !w.chans[ch].open && v == SetTask(w, t, Arriving)
    case Cancel(t) =>
      // A leader cancelled while it works leaves the map first and drops its sender next.
      && t in w.tasks
      && match w.tasks[t].st
         case Leading(ch) => v == SetTask(w, t, Dropping(ch)).(inflight := w.inflight - {w.tasks[t].offset})
         case Waiting(_) => v == SetTask(w, t, Cancelled)
         case Arriving => v == SetTask(w, t, Cancelled)
         case _ => false
  }

  // ---- The invariant ------------------------------------------------------------------------------

  /** A leader that still owns its slot: working, or published and about to leave the map. */
  predicate Owns(st: State, ch: ChanId) {
    st == Leading(ch) || st == Sent(ch)
  }

  ghost predicate TaskOk(w: World, t: TaskId)
    requires t in w.tasks
  {
    var task := w.tasks[t];
    match task.st
    case Arriving => true
    case Cancelled => true
    case Leading(ch) =>
      && ch < |w.chans| && w.chans[ch] == Chan(task.offset, t, None, true)
      && task.offset in w.inflight && w.inflight[task.offset] == ch
    case Sent(ch) =>
      && ch < |w.chans| && w.chans[ch].value.Some? && w.chans[ch] == Chan(task.offset, t, w.chans[ch].value, true)
      && task.offset in w.inflight && w.inflight[task.offset] == ch
    case Dropping(ch) =>
      ch < |w.chans| && w.chans[ch] == Chan(task.offset, t, w.chans[ch].value, true)
    case Waiting(ch) => ch < |w.chans| && w.chans[ch].offset == task.offset
    case Done(ch, result) =>
      ch < |w.chans| && w.chans[ch].offset == task.offset && w.chans[ch].value == Some(result)
  }

  ghost predicate ChanOk(w: World, ch: ChanId)
    requires ch < |w.chans|
  {
    var c := w.chans[ch];
    && c.leader in w.tasks && w.tasks[c.leader].offset == c.offset
    && (c.open ==> Owns(w.tasks[c.leader].st, ch) || w.tasks[c.leader].st == Dropping(ch))
    && (c.value.Some? ==> (c.leader, c.offset, c.value.value) in w.published)
  }

  ghost predicate SlotOk(w: World, o: string)
    requires o in w.inflight
  {
    var ch := w.inflight[o];
    && ch < |w.chans| && w.chans[ch].offset == o
    && w.chans[ch].leader in w.tasks && Owns(w.tasks[w.chans[ch].leader].st, ch)
  }

  ghost predicate Inv(w: World) {
    && (forall t | t in w.tasks :: TaskOk(w, t))
    && (forall ch: nat | ch < |w.chans| :: ChanOk(w, ch))
    && (forall o | o in w.inflight :: SlotOk(w, o))
  }

  lemma TasksKept(w: World, ev: Event, v: World, x: TaskId)
    requires Inv(w) && Next(w, ev, v) && x in v.tasks
    ensures TaskOk(v, x)
  {
    if x in w.tasks {
      assert TaskOk(w, x);
      if !ev.Arrive? && ev.t in w.tasks {
        assert TaskOk(w, ev.t);
      }
    }
  }

  lemma ChansKept(w: World, ev: Event, v: World, ch: ChanId)
    requires Inv(w) && Next(w, ev, v) && ch < |v.chans|
    ensures ChanOk(v, ch)
  {
    if ch < |w.chans| {
      assert ChanOk(w, ch);
    }
    if !ev.Arrive? && ev.t in w.tasks {
      assert TaskOk(w, ev.t);
    }
  }

  lemma SlotsKept(w: World, ev: Event, v: World, o: string)
    requires Inv(w) && Next(w, ev, v) && o in v.inflight
    ensures SlotOk(v, o)
  {
    if o in w.inflight {
      assert SlotOk(w, o);
    }
    if !ev.Arrive? && ev.t in w.tasks {
      assert TaskOk(w, ev.t);
    }
  }

  lemma StepKeepsInv(w: World, ev: Event, v: World)
    requires Inv(w) && Next(w, ev, v)
    ensures Inv(v)
  {
    forall t | t in v.tasks ensures TaskOk(v, t) { TasksKept(w, ev, v, t); }
    forall ch: nat | ch < |v.chans| ensures ChanOk(v, ch) { ChansKept(w, ev, v, ch); }
    forall o | o in v.inflight ensures SlotOk(v, o) { SlotsKept(w, ev, v, o); }
  }

  // ---- The map under its lock ---------------------------------------------------------------------

  /** The slot map as the object its lock protects. Each method is one locked edit, made by request `t` in
      state `w` of the protocol; `v` is the state it leads to. */
  class SlotMap {
    var inflight: map<string, ChanId>

    constructor ()
      ensures inflight == map[]
    {
      inflight := map[];
    }

    /** Look up or insert. Whoever is told to wait waits for its own offset, on a leader that still owns the
        slot; whoever is not leads, and no other request leads at that offset. */
    method Join(offset: string, newChan: ChanId, ghost w: World, ghost t: TaskId)
      returns (waitOn: Option<ChanId>, ghost v: World)
      requires Inv(w) && inflight == w.inflight && newChan == |w.chans|
      requires t in w.tasks && w.tasks[t] == Task(offset, Arriving)
      modifies this
      ensures Next(w, Elect(t), v) && Inv(v) && inflight == v.inflight
      ensures waitOn.Some? ==>
                && v.tasks[t].st == Waiting(waitOn.value)
                && v.chans[waitOn.value].offset == offset
                && v.chans[waitOn.value].leader in v.tasks
                && Owns(v.tasks[v.chans[waitOn.value].leader].st, waitOn.value)
      ensures waitOn.None? ==>
                && v.tasks[t].st == Leading(newChan)
                && forall u | u in v.tasks && v.tasks[u].offset == offset && (v.tasks[u].st.Leading? || v.tasks[u].st.Sent?) :: u == t
    {
      if offset in inflight {
        waitOn := Some(inflight[offset]);
        v := SetTask(w, t, Waiting(inflight[offset]));
      } else {
        waitOn := None;
        v := SetTask(w, t, Leading(newChan)).(chans := w.chans + [Chan(offset, t, None, true)],
                                               inflight := w.inflight[offset := newChan]);
        inflight := inflight[offset := newChan];
      }
      StepKeepsInv(w, Elect(t), v);
      if waitOn.Some? {
        assert SlotOk(v, offset);
      } else {
        SoleLeader(v, t);
      }
    }

    /** A leader's slot goes when it has published, or when it is cancelled at work. */
    method Leave(offset: string, ghost w: World, ghost t: TaskId) returns (ghost v: World)
      requires Inv(w) && inflight == w.inflight
      requires t in w.tasks && w.tasks[t].offset == offset && (w.tasks[t].st.Sent? || w.tasks[t].st.Leading?)
      modifies this
      ensures Next(w, if w.tasks[t].st.Sent? then Unregister(t) else Cancel(t), v) && Inv(v)
      ensures inflight == v.inflight && offset !in inflight
    {
      inflight := inflight - {offset};
      v := SetTask(w, t, Dropping(w.tasks[t].st.ch)).(inflight := inflight);
      StepKeepsInv(w, if w.tasks[t].st.Sent? then Unregister(t) else Cancel(t), v);
    }
  }

  /** Two requests that own the slot of one offset are one. */
  lemma SoleLeader(w: World, t: TaskId)
    requires Inv(w) && t in w.tasks && (w.tasks[t].st.Leading? || w.tasks[t].st.Sent?)
    ensures forall u | u in w.tasks && w.tasks[u].offset == w.tasks[t].offset
                       && (w.tasks[u].st.Leading? || w.tasks[u].st.Sent?) :: u == t
  {
    forall u | u in w.tasks ensures TaskOk(w, u) {
    }
  }

  ghost predicate Run(run: seq<World>, events: seq<Event>) {
    && |run| == |events| + 1 && run[0] == World(map[], [], map[], {})
    && forall i | 0 <= i < |events| :: Next(run[i], events[i], run[i + 1])
  }

  lemma {:induction false} RunKeepsInv(run: seq<World>, events: seq<Event>)
    requires Run(run, events)
    ensures Inv(run[|events|])
    decreases |events|
  {
    if events != [] {
      var n := |events| - 1;
      RunKeepsInv(run[..n + 1], events[..n]);
      assert Next(run[n], events[n], run[n + 1]);
      StepKeepsInv(run[n], events[n], run[n + 1]);
    }
  }

  // ---- What holds in every run --------------------------------------------------------------------

  /** An offset has a slot exactly while some leader at it has not left the map, and it never has two. */
  lemma OneLeaderPerSlot(run: seq<World>, events: seq<Event>, o: string)
    requires Run(run, events)
    ensures var w := run[|events|];
            && (o in w.inflight <==>
                  exists t :: t in w.tasks && w.tasks[t].offset == o && (w.tasks[t].st.Leading? || w.tasks[t].st.Sent?))
            && (forall t, u | t in w.tasks && u in w.tasks && w.tasks[t].offset == w.tasks[u].offset == o
                              && (w.tasks[t].st.Leading? || w.tasks[t].st.Sent?)
                              && (w.tasks[u].st.Leading? || w.tasks[u].st.Sent?) :: t == u)
  {
    RunKeepsInv(run, events);
    var w := run[|events|];
    if o in w.inflight {
      assert SlotOk(w, o);
      var t := w.chans[w.inflight[o]].leader;
      assert TaskOk(w, t);
    }
    forall t | t in w.tasks
      ensures TaskOk(w, t)
    {
    }
  }

  /** A request returns only a result that a leader published for this handle at the same offset. */
  lemma ReturnsArePublished(run: seq<World>, events: seq<Event>, t: TaskId)
    requires Run(run, events) && t in run[|events|].tasks && run[|events|].tasks[t].st.Done?
    ensures var w := run[|events|];
            exists leader :: leader in w.tasks && w.tasks[leader].offset == w.tasks[t].offset
                             && (leader, w.tasks[t].offset, w.tasks[t].st.result) in w.published
  {
    RunKeepsInv(run, events);
    var w := run[|events|];
    assert TaskOk(w, t);
    assert ChanOk(w, w.tasks[t].st.ch);
    var leader := w.chans[w.tasks[t].st.ch].leader;
    assert (leader, w.tasks[t].offset, w.tasks[t].st.result) in w.published;
  }

  /** No waiter is stranded: the leader of its channel still has steps to take, or there is a published
      value to take, or it may elect again. */
  lemma NoWaiterStranded(run: seq<World>, events: seq<Event>, t: TaskId)
    requires Run(run, events) && t in run[|events|].tasks && run[|events|].tasks[t].st.Waiting?
    ensures var w := run[|events|]; var ch := w.tasks[t].st.ch;
            && ch < |w.chans|
            && ((w.chans[ch].leader in w.tasks
                 && (Owns(w.tasks[w.chans[ch].leader].st, ch) || w.tasks[w.chans[ch].leader].st == Dropping(ch)))
                || (exists v :: Next(w, Take(t), v))
                || (exists v :: Next(w, Reelect(t), v)))
  {
    RunKeepsInv(run, events);
    var w := run[|events|];
    assert TaskOk(w, t);
    var ch := w.tasks[t].st.ch;
    assert ChanOk(w, ch);
    if w.chans[ch].value.Some? {
      assert Next(w, Take(t), SetTask(w, t, Done(ch, w.chans[ch].value.value)));
    } else if !w.chans[ch].open {
      assert Next(w, Reelect(t), SetTask(w, t, Arriving));
    }
  }

  /** Steps a leader has left before its channel is closed to waiters. */
  function LeaderSteps(st: State): nat {
    match st
    case Leading(_) => 3
    case Sent(_) => 2
    case Dropping(_) => 1
    case _ => 0
  }

  /** Once a leader's work has ended, each of its own steps brings its channel's closing nearer, and no
      step of another task puts it off. */
  lemma LeadersFinish(w: World, ev: Event, v: World, t: TaskId)
    requires Inv(w) && Next(w, ev, v) && t in w.tasks
    requires w.tasks[t].st.Leading? || w.tasks[t].st.Sent? || w.tasks[t].st.Dropping?
    ensures ev.t == t ==> LeaderSteps(v.tasks[t].st) < LeaderSteps(w.tasks[t].st)
    ensures ev.t != t ==> v.tasks[t] == w.tasks[t]
    ensures !w.tasks[t].st.Leading? ==> exists e: Event, u: World :: e.t == t && Next(w, e, u)
  {
    assert TaskOk(w, t);
    match w.tasks[t].st
    case Sent(ch) =>
      assert Next(w, Unregister(t), SetTask(w, t, Dropping(ch)).(inflight := w.inflight - {w.tasks[t].offset}));
    case Dropping(ch) =>
      var end := if w.chans[ch].value.Some? then Done(ch, w.chans[ch].value.value) else Cancelled;
      assert Next(w, DropSender(t), SetTask(w, t, end).(chans := w.chans[ch := w.chans[ch].(open := false)]));
    case _ =>
  }
}
