/**
 The change log's writer and its shared state as objects, over a storage object that answers as the
 durable streams do. Their contracts are in the terms of `ChangeLog`, and the last section shows that a
 rotation's storage effects are the machine's steps.
 */
module ChangeLogWriter {
  import opened Basics
  import opened ChangeLog

  type Segments = map<nat, Segment>

  datatype Appended = Landed(tail: nat) | Retired | Failed

  /** Storage: absent, open or closed streams. `fails` says which requests fail, by their number; one that
      changes something may have taken effect all the same. With `falseGone`, an append may be told that an
      open stream is gone. */
  class Storage {
    const fails: nat -> bool
    const falseGone: bool
    var segs: Segments
    var requests: nat

    constructor (fails: nat -> bool, falseGone: bool)
      ensures segs == map[] && requests == 0 && this.fails == fails && this.falseGone == falseGone
    {
      this.fails, this.falseGone, segs, requests := fails, falseGone, map[], 0;
    }

    /** No request since the `from`-th has failed. */
    ghost predicate Answered(from: nat)
      reads this
    {
      forall i: nat | from <= i < requests :: !fails(i)
    }

    method Ask() returns (answered: bool)
      modifies this`requests
      ensures requests == old(requests) + 1 && (answered <==> !fails(old(requests)))
    {
      answered := !fails(requests);
      requests := requests + 1;
    }

    function Heads(): Heads
      reads this
    {
      var s := segs;
      (n: nat) => if n in s then Some(s[n].closed) else None
    }

    method Head(n: nat) returns (closed: Result<Option<bool>, ()>)
      modifies this`requests
      ensures requests == old(requests) + 1
      ensures closed == if fails(old(requests)) then Err(()) else Ok(Heads()(n))
    {
      var answered := Ask();
      closed := if !answered then Err(()) else Ok(if n in segs then Some(segs[n].closed) else None);
    }

    /** Idempotent: a stream that exists is left as it is. */
    method Ensure(n: nat) returns (ok: bool)
      modifies this
      ensures requests == old(requests) + 1 && (ok <==> !fails(old(requests)))
      ensures segs == Ensured(old(segs), n) || (!ok && segs == old(segs))
    {
      ok := Ask();
      var landed: bool := *;
      if (ok || landed) && n !in segs {
        segs := segs[n := Segment([], false)];
      }
    }

    /** A closed or missing stream is an answer, not an error, and nothing lands. After a failure the items
        are there, once and whole, or they are not. */
    method AppendChecked(n: nat, items: seq<Item>) returns (r: Appended)
      modifies this
      ensures requests == old(requests) + 1 && (r.Failed? <==> fails(old(requests)))
      ensures r.Landed? ==>
                CanAppend(old(segs), n) && segs == WithItems(old(segs), n, items) && r.tail == |segs[n].items|
      ensures r.Retired? ==> segs == old(segs) && (CanAppend(old(segs), n) ==> falseGone)
      ensures r.Failed? ==>
                segs == old(segs) || (CanAppend(old(segs), n) && segs == WithItems(old(segs), n, items))
    {
      var answered := Ask();
      var gone: bool, landed: bool := *, *;
      if n !in segs || segs[n].closed || (falseGone && gone) {
        return if answered then Retired else Failed;
      }
      if !answered && !landed {
        return Failed;
      }
      segs := segs[n := segs[n].(items := segs[n].items + items)];
      r := if answered then Landed(|segs[n].items|) else Failed;
    }

    /** The tail offset a head request gives. */
    method Tail(n: nat) returns (tail: Result<Option<nat>, ()>)
      modifies this`requests
      ensures requests == old(requests) + 1
      ensures tail == if fails(old(requests)) then Err(())
                      else Ok(if n in segs then Some(|segs[n].items|) else None)
    {
      var answered := Ask();
      tail := if !answered then Err(()) else Ok(if n in segs then Some(|segs[n].items|) else None);
    }

    method Delete(n: nat) returns (ok: bool)
      modifies this
      ensures requests == old(requests) + 1 && (ok <==> !fails(old(requests)))
      ensures segs == old(segs) - {n} || (!ok && segs == old(segs))
    {
      ok := Ask();
      var landed: bool := *;
      if ok || landed {
        segs := segs - {n};
      }
    }

    /** Closing a closed or missing stream succeeds and changes nothing. */
    method Close(n: nat) returns (ok: bool)
      modifies this
      ensures requests == old(requests) + 1 && (ok <==> !fails(old(requests)))
      ensures segs == WithClosed(old(segs), n) || (!ok && segs == old(segs))
    {
      ok := Ask();
      var landed: bool := *;
      if (ok || landed) && n in segs {
        segs := segs[n := segs[n].(closed := true)];
      }
    }
  }

  function Ensured(segs: Segments, n: nat): Segments {
    if n in segs then segs else segs[n := Segment([], false)]
  }

  function WithItems(segs: Segments, n: nat, items: seq<Item>): Segments
    requires n in segs
  {
    segs[n := segs[n].(items := segs[n].items + items)]
  }

  function WithClosed(segs: Segments, n: nat): Segments {
    if n in segs then segs[n := segs[n].(closed := true)] else segs
  }

  /** Where the log is, in memory: the current segment, when each known one began, and the tail. */
  class ChangesState {
    var current: nat
    var starts: map<nat, nat>
    var tail: Option<nat>

    constructor ()
      ensures current == 0 && starts == map[] && tail == None
    {
      current, starts, tail := 0, map[], None;
    }

    method Adopt(current: nat, starts: map<nat, nat>, tail: Option<nat>)
      modifies this
      ensures this.current == current && this.starts == starts && this.tail == tail
    {
      this.current, this.starts, this.tail := current, starts, tail;
    }

    method Began(segment: nat, at: nat)
      modifies this
      ensures current == segment && starts == old(starts)[segment := at] && tail == None
    {
      current, starts, tail := segment, starts[segment := at], None;
    }

    method SetTail(offset: nat)
      modifies this`tail
      ensures tail == Some(offset)
    {
      tail := Some(offset);
    }

    method Forget(segment: nat)
      modifies this`starts
      ensures starts == old(starts) - {segment}
    {
      starts := starts - {segment};
    }
  }

  /** The walk's answer if every request it makes is answered; if one is not, it gives up there. */
  method ResolveCurrentSegment(store: Storage, from: nat, recorded: bool) returns (r: Result<nat, WalkError>)
    modifies store`requests
    ensures store.requests >= old(store.requests)
    ensures r == if store.Answered(old(store.requests)) then ResolveCurrent(store.Heads(), from, recorded)
                 else Err(Unanswered)
  {
    var cur := from;
    ghost var heads := store.Heads();
    for round := 0 to MAX_WALK
      invariant store.requests >= old(store.requests) && store.Answered(old(store.requests))
      invariant store.segs == old(store.segs)
      invariant Walk(heads, from, cur, recorded, MAX_WALK - round) == ResolveCurrent(heads, from, recorded)
    {
      var head := store.Head(cur);
      if head.Err? {
        return Err(Unanswered);
      }
      if head.value.None? {
        return if cur == from && !recorded then Ok(cur) else Err(Missing(cur));
      }
      if !head.value.value {
        return Ok(cur);
      }
      var next := store.Head(cur + 1);
      if next.Err? {
        return Err(Unanswered);
      }
      if next.value.None? {
        return Err(NoSuccessor(cur));
      }
      cur := cur + 1;
    }
    r := Err(TooLong);
  }

  /** What each of the walk's answers means in storage; no two of them apply at once. */
  lemma {:induction false} WalkMeaning(heads: Heads, from: nat, cur: nat, recorded: bool, fuel: nat)
    requires from <= cur && (cur == from || heads(cur).Some?)
    ensures match Walk(heads, from, cur, recorded, fuel)
            case Ok(n) =>
              && cur <= n < cur + fuel && (forall i | cur <= i < n :: heads(i) == Some(true))
              && (heads(n) == Some(false) || (n == from && heads(n).None? && !recorded))
            case Err(Missing(n)) => n == cur == from && heads(n).None? && recorded
            case Err(NoSuccessor(n)) =>
              && cur <= n < cur + fuel && (forall i | cur <= i <= n :: heads(i) == Some(true))
              && heads(n + 1).None?
            case Err(TooLong) => forall i | cur <= i < cur + fuel :: heads(i) == Some(true)
            case Err(_) => false
    decreases fuel
  {
    if fuel > 0 && heads(cur) == Some(true) && heads(cur + 1).Some? {
      WalkMeaning(heads, from, cur + 1, recorded, fuel - 1);
    }
  }

  /** Every segment from `cur` up to the open one is there and closed. */
  ghost predicate LeadsTo(segs: Segments, cur: nat, n: nat) {
    && cur <= n && n in segs && !segs[n].closed
    && forall i | cur <= i < n :: i in segs && segs[i].closed
  }

  lemma {:induction false} WalkReaches(heads: Heads, from: nat, cur: nat, n: nat, fuel: nat)
    requires cur <= n && n - cur < fuel && heads(n) == Some(false)
    requires forall i | cur <= i < n :: heads(i) == Some(true)
    ensures Walk(heads, from, cur, true, fuel) == Ok(n)
    decreases n - cur
  {
    if cur < n {
      WalkReaches(heads, from, cur + 1, n, fuel - 1);
    }
  }

  datatype BootError = Unresolved(e: WalkError) | Unavailable | StartMissing(seg: nat)

  /** The boot: resolve the current segment, create it if it never was, count every segment from the
      recorded one on as begun, and adopt the result if the sequencer's start is still stored. `sent` are
      the rotations whose records were missing. */
  method InitChangeLog(store: Storage, state: ChangesState, fromFold: nat, recorded: map<nat, nat>,
                       seqStart: nat, now: nat)
    returns (r: Result<nat, BootError>, sent: seq<nat>)
    modifies store, state
    ensures r.Err? ==> state.current == old(state.current) && state.starts == old(state.starts) && state.tail == old(state.tail)
    ensures r.Ok? ==>
              && state.current == r.value && LeadsTo(store.segs, fromFold, r.value)
              && seqStart in store.segs
              && (state.tail == Some(|store.segs[r.value].items|) || (state.tail.None? && seqStart != r.value))
              && (forall n :: n in state.starts <==> n in recorded || fromFold <= n <= r.value)
              && (forall n | n in state.starts :: state.starts[n] == if n in recorded then recorded[n] else now)
              && (forall n :: n in sent <==> fromFold <= n <= r.value && n !in recorded)
    ensures Ascending(sent)
    ensures store.segs == old(store.segs) || (fromFold !in recorded && store.segs == Ensured(old(store.segs), fromFold))
    // With every request answered it refuses only what the walk refuses, or a start that is not stored.
    ensures store.requests >= old(store.requests)
    ensures r.Err? && store.Answered(old(store.requests)) ==>
              || ResolveCurrent(old(store.Heads()), fromFold, fromFold in recorded).Err?
              || (r == Err(StartMissing(seqStart)) && seqStart !in store.segs)
    ensures r.Ok? && store.Answered(old(store.requests)) ==> state.tail.Some?
  {
    sent := [];
    var resolved := ResolveCurrentSegment(store, fromFold, fromFold in recorded);
    if resolved.Err? {
      return Err(Unresolved(resolved.error)), [];
    }
    var current := resolved.value;
    BootWalkLeadsTo(store.segs, store.Heads(), fromFold, fromFold in recorded);
    var created := store.Ensure(current);
    if !created {
      return Err(Unavailable), [];
    }
    var starts: map<nat, nat>;
    starts, sent := CountBegun(recorded, fromFold, current, now);
    var startTail := store.Tail(seqStart);
    if startTail.Err? {
      return Err(Unavailable), sent;
    }
    if startTail.value.None? {
      return Err(StartMissing(seqStart)), sent;
    }
    var tail := startTail.value;
    if seqStart != current {
      var t := store.Tail(current);
      tail := if t.Ok? then t.value else None;
    }
    state.Adopt(current, starts, tail);
    r := Ok(current);
  }

  /** Every segment from the recorded one to the current one has begun; `sent` are those not recorded. */
  method CountBegun(recorded: map<nat, nat>, fromFold: nat, current: nat, now: nat)
    returns (starts: map<nat, nat>, sent: seq<nat>)
    requires fromFold <= current
    ensures forall n :: n in starts <==> n in recorded || fromFold <= n <= current
    ensures forall n | n in starts :: starts[n] == if n in recorded then recorded[n] else now
    ensures Ascending(sent) && forall n :: n in sent <==> fromFold <= n <= current && n !in recorded
  {
    starts, sent := recorded, [];
    for n := fromFold to current + 1
      invariant forall m :: m in starts <==> m in recorded || fromFold <= m < n
      invariant forall m | m in starts :: starts[m] == if m in recorded then recorded[m] else now
      invariant forall m :: m in sent <==> fromFold <= m < n && m !in recorded
      invariant Ascending(sent) && forall k | 0 <= k < |sent| :: sent[k] < n
    {
      if n !in starts {
        starts := starts[n := now];
        sent := sent + [n];
      }
    }
  }

  lemma BootWalkLeadsTo(segs: Segments, heads: Heads, from: nat, recorded: bool)
    requires HeadsSay(segs, heads) && ResolveCurrent(heads, from, recorded).Ok?
    ensures var n := ResolveCurrent(heads, from, recorded).value;
            && LeadsTo(Ensured(segs, n), from, n)
            && (n in segs || (n == from && !recorded))
  {
    WalkMeaning(heads, from, from, recorded, MAX_WALK);
    var n := ResolveCurrent(heads, from, recorded).value;
    forall i | from <= i < n
      ensures i in segs && segs[i].closed
    {
      assert heads(i) == Some(true);
    }
  }

  /** The execution of a sweep: each doomed segment is closed and deleted, and forgotten once it is gone.
      Nothing else is touched, and a segment is forgotten only if it is no longer stored. */
  method DeleteSegments(store: Storage, state: ChangesState, doomed: seq<nat>)
    modifies store, state
    ensures state.current == old(state.current) && state.tail == old(state.tail)
    ensures forall n | n !in doomed :: n in store.segs <==> n in old(store.segs)
    ensures forall n | n in store.segs ::
              n in old(store.segs) && store.segs[n].items == old(store.segs)[n].items
              && (n !in doomed ==> store.segs[n] == old(store.segs)[n])
    ensures forall n | n in old(state.starts) ::
              if n in state.starts then state.starts[n] == old(state.starts)[n] else n in doomed && n !in store.segs
    ensures state.starts.Keys <= old(state.starts).Keys
    // With every request answered, nothing doomed is left.
    ensures store.requests >= old(store.requests)
    ensures store.Answered(old(store.requests)) ==>
              forall n | n in doomed :: n !in store.segs && n !in state.starts
  {
    for i := 0 to |doomed|
      invariant store.requests >= old(store.requests)
      invariant store.Answered(old(store.requests)) ==>
                  forall n | n in doomed[..i] :: n !in store.segs && n !in state.starts
      invariant state.current == old(state.current) && state.tail == old(state.tail)
      invariant forall n | n !in doomed[..i] :: n in store.segs <==> n in old(store.segs)
      invariant forall n | n in store.segs ::
                  n in old(store.segs) && store.segs[n].items == old(store.segs)[n].items
                  && (n !in doomed[..i] ==> store.segs[n] == old(store.segs)[n])
      invariant forall n | n in old(state.starts) ::
                  if n in state.starts then state.starts[n] == old(state.starts)[n]
                  else n in doomed[..i] && n !in store.segs
      invariant state.starts.Keys <= old(state.starts).Keys
    {
      var n := doomed[i];
      assert doomed[..i + 1] == doomed[..i] + [n];
      var _ := store.Close(n);
      var ok := store.Delete(n);
      if ok {
        state.Forget(n);
      }
    }
    assert doomed[..|doomed|] == doomed;
  }

  datatype AppendError = Walked(e: WalkError) | KeptMoving | AppendFailed

  class Writer {
    const store: Storage
    const state: ChangesState
    /** The rotations handed to the catalog, in order. */
    var sent: seq<(nat, nat)>

    constructor (store: Storage, state: ChangesState)
      ensures this.store == store && this.state == state && sent == []
    {
      this.store, this.state, this.sent := store, state, [];
    }

    /** One rotation attempt. However it ends, some number of its storage actions have taken effect, in
        their order; the state and the catalog hear of it only if all three have, and were acknowledged. */
    method Rotate(now: nat) returns (ok: bool)
      modifies this, store, state
      ensures exists landed: nat | landed <= 3 ::
                store.segs == RotateEffect(old(store.segs), old(state.current), landed)
      ensures store.requests >= old(store.requests)
      ensures store.Answered(old(store.requests)) && CanAppend(old(store.segs), old(state.current)) && !store.falseGone
              ==> ok
      ensures ok ==>
                && CanAppend(old(store.segs), old(state.current))
                && store.segs == RotateEffect(old(store.segs), old(state.current), 3)
                && HandedOver(old(store.segs), old(state.current), store.segs)
                && state.current == old(state.current) + 1
                && state.starts == old(state.starts)[state.current := now] && state.tail == None
                && sent == old(sent) + [(state.current, now)]
      ensures !ok ==>
                && state.current == old(state.current) && state.starts == old(state.starts)
                && state.tail == old(state.tail) && sent == old(sent)
    {
      var from := state.current;
      var to := from + 1;
      ghost var was := store.segs;
      assert was == RotateEffect(was, from, 0);
      ok := store.Ensure(to);
      assert store.segs == RotateEffect(was, from, 0) || store.segs == RotateEffect(was, from, 1);
      if !ok { return; }
      var pointer := store.AppendChecked(from, [Pointer(to)]);
      assert store.segs == RotateEffect(was, from, 1) || store.segs == RotateEffect(was, from, 2);
      if !pointer.Landed? { return false; }
      ok := store.Close(from);
      assert store.segs == RotateEffect(was, from, 2) || store.segs == RotateEffect(was, from, 3);
      if !ok { return; }
      state.Began(to, now);
      sent := sent + [(to, now)];
    }

    method ResolveForward(now: nat) returns (r: Result<nat, WalkError>)
      modifies this, state, store`requests
      ensures store.requests >= old(store.requests)
      ensures r == if store.Answered(old(store.requests)) then ResolveCurrent(store.Heads(), old(state.current), true)
                   else Err(Unanswered)
      ensures r.Err? ==>
                && state.current == old(state.current) && state.starts == old(state.starts)
                && state.tail == old(state.tail) && sent == old(sent)
      ensures r.Ok? ==>
                && state.current == r.value && LeadsTo(store.segs, old(state.current), r.value)
                && state.starts == BeganAll(old(state.starts), old(state.current), r.value, now)
                && state.tail == (if r.value == old(state.current) then old(state.tail) else None)
                && sent == old(sent) + Rotations(old(state.current), r.value, now)
    {
      var from := state.current;
      r := ResolveCurrentSegment(store, from, true);
      if r.Ok? {
        WalkLeadsTo(store.segs, store.Heads(), from);
        CatchUp(r.value, now);
      }
    }

    /** The state and the catalog hear of every segment up to `to`. */
    method CatchUp(to: nat, now: nat)
      requires state.current <= to
      modifies this, state
      ensures state.current == to
      ensures state.starts == BeganAll(old(state.starts), old(state.current), to, now)
      ensures state.tail == if to == old(state.current) then old(state.tail) else None
      ensures sent == old(sent) + Rotations(old(state.current), to, now)
    {
      var n := state.current;
      ghost var from := n;
      while n < to
        invariant from <= n <= to && state.current == n
        invariant state.starts == BeganAll(old(state.starts), from, n, now)
        invariant state.tail == if n == from then old(state.tail) else None
        invariant sent == old(sent) + Rotations(from, n, now)
      {
        assert Rotations(from, n + 1, now) == Rotations(from, n, now) + [(n + 1, now)];
        n := n + 1;
        state.Began(n, now);
        sent := sent + [(n, now)];
      }
    }

    /** A commit that succeeds has landed once and whole at the end of the one open segment the closed ones
        lead to. If its append fails it is there, or it is nowhere; after any other error it is nowhere.
        The walk fails, unless a request does, only if no open segment is within its bound, and the rounds
        run out only if storage denies a segment that is open. */
    method AppendCommit(items: seq<Item>, now: nat) returns (r: Result<(), AppendError>)
      modifies this, store, state
      ensures items == [] ==> r.Ok? && store.segs == old(store.segs) && state.current == old(state.current)
      ensures state.current == old(state.current) || LeadsTo(old(store.segs), old(state.current), state.current)
      ensures r.Ok? && items != [] ==>
                && LeadsTo(old(store.segs), old(state.current), state.current)
                && store.segs == WithItems(old(store.segs), state.current, items)
                && state.tail == Some(|store.segs[state.current].items|)
      ensures r == Err(AppendFailed) ==>
                || store.segs == old(store.segs)
                || (LeadsTo(old(store.segs), old(state.current), state.current)
                    && store.segs == WithItems(old(store.segs), state.current, items))
      ensures r.Err? && r != Err(AppendFailed) ==> store.segs == old(store.segs)
      ensures r.Err? && r.error.Walked? && !r.error.e.Unanswered? ==>
                forall n: nat | LeadsTo(old(store.segs), old(state.current), n) :: n - old(state.current) >= MAX_WALK
      ensures r == Err(KeptMoving) ==> store.falseGone
      ensures store.requests >= old(store.requests)
      ensures store.Answered(old(store.requests)) && !store.falseGone ==>
                forall n: nat | LeadsTo(old(store.segs), old(state.current), n) && n - old(state.current) < MAX_WALK :: r.Ok?
    {
      if |items| == 0 {
        return Ok(());
      }
      for attempt := 0 to 8
        invariant store.segs == old(store.segs)
        invariant state.current == old(state.current) || LeadsTo(store.segs, old(state.current), state.current)
        invariant attempt > 0 ==> LeadsTo(store.segs, old(state.current), state.current)
        invariant attempt > 1 ==> store.falseGone
        invariant store.requests >= old(store.requests)
      {
        var appended := store.AppendChecked(state.current, items);
        if appended.Landed? {
          state.SetTail(appended.tail);
          return Ok(());
        }
        if appended.Failed? {
          return Err(AppendFailed);
        }
        var resolved := ResolveForward(now);
        if resolved.Err? {
          NoEnd(store.segs, old(state.current), state.current, store.Heads());
          return Err(Walked(resolved.error));
        }
      }
      r := Err(KeptMoving);
    }
  }

  /** When each segment began, after a walk from `from` to `to`. */
  function BeganAll(starts: map<nat, nat>, from: nat, to: nat, now: nat): (after: map<nat, nat>)
    requires from <= to
    ensures forall n :: n in after <==> n in starts || from < n <= to
    ensures forall n | n in after :: after[n] == (if from < n <= to then now else starts[n])
  {
    if from == to then starts else BeganAll(starts, from, to - 1, now)[to := now]
  }

  predicate CanAppend(segs: Segments, n: nat) {
    n in segs && !segs[n].closed
  }

  /** The storage effect of the first `landed` actions of a rotation from `n`. */
  function RotateEffect(segs: Segments, n: nat, landed: nat): Segments {
    if landed == 0 then segs
    else
      var created := Ensured(segs, n + 1);
      if landed == 1 || !CanAppend(created, n) then created
      else
        var pointed := WithItems(created, n, [Pointer(n + 1)]);
        if landed == 2 then pointed else WithClosed(pointed, n)
  }

  /** Segment `n` is closed behind a pointer to the next one, which is there; nothing else has changed. */
  ghost predicate HandedOver(before: Segments, n: nat, after: Segments)
    requires n in before
  {
    && after.Keys == before.Keys + {n + 1}
    && after[n] == Segment(before[n].items + [Pointer(n + 1)], true)
    && (n + 1 !in before ==> after[n + 1] == Segment([], false))
    && forall i | i in before && i != n :: after[i] == before[i]
  }

  /** The rotations a walk from `from` to `to` tells the catalog about. */
  function Rotations(from: nat, to: nat, now: nat): (s: seq<(nat, nat)>)
    requires from <= to
    ensures |s| == to - from && forall i | 0 <= i < |s| :: s[i] == (from + 1 + i, now)
  {
    seq(to - from, i requires 0 <= i < to - from => (from + 1 + i, now))
  }

  ghost predicate HeadsSay(segs: Segments, heads: Heads) {
    forall i: nat :: heads(i) == if i in segs then Some(segs[i].closed) else None
  }

  lemma WalkLeadsTo(segs: Segments, heads: Heads, from: nat)
    requires HeadsSay(segs, heads) && ResolveCurrent(heads, from, true).Ok?
    ensures LeadsTo(segs, from, ResolveCurrent(heads, from, true).value)
  {
    WalkMeaning(heads, from, from, true, MAX_WALK);
    var n := ResolveCurrent(heads, from, true).value;
    forall i | from <= i < n
      ensures i in segs && segs[i].closed
    {
      assert heads(i) == Some(true);
    }
  }

  /** A walk that fails other than for a request says that no open segment is within its bound. */
  lemma NoEnd(segs: Segments, from: nat, cur: nat, heads: Heads)
    requires HeadsSay(segs, heads) && (cur == from || LeadsTo(segs, from, cur))
    ensures ResolveCurrent(heads, cur, true).Err? ==>
              forall n: nat | LeadsTo(segs, from, n) :: n - from >= MAX_WALK
  {
    if ResolveCurrent(heads, cur, true).Err? {
      forall n: nat | LeadsTo(segs, from, n)
        ensures n - from >= MAX_WALK
      {
        if cur != from {
          assert n == cur;
          WalkReaches(heads, cur, cur, cur, MAX_WALK);
        } else if n - from < MAX_WALK {
          WalkReaches(heads, from, from, n, MAX_WALK);
        }
      }
    }
  }

  // ---- The rotation's effects are the machine's steps ---------------------------------------------

  /** What storage holds in a state of the machine. */
  function Stored(w: Log): Segments {
    map n | 0 <= n < |w.segs| && n !in w.gone :: w.segs[n]
  }

  lemma StoredPut(w: Log, v: Log, n: nat, seg: Segment)
    requires n <= |w.segs| && n !in w.gone && v.gone == w.gone
    requires v.segs == if n < |w.segs| then w.segs[n := seg] else w.segs + [seg]
    ensures Stored(v) == Stored(w)[n := seg]
  {
  }

  lemma CurrentIsStored(w: Log)
    requires Inv(w) && w.writer.Up? && w.segs != []
    ensures forall n | n >= w.writer.current :: n !in w.gone
  {
  }

  /** Each rotation step of the machine has, on storage, the effect of the next action of `Rotate`. */
  lemma RotationStepsAreActions(w: Log, ev: Event, v: Log)
    requires Inv(w) && WriterStep(w, ev, v)
    requires ev == CreateSuccessor || ev == AppendPointer || ev == CloseSegment
    ensures w.writer.Up?
    ensures ev == CreateSuccessor ==> Stored(v) == Ensured(Stored(w), w.writer.current + 1)
    ensures ev == AppendPointer ==>
              && CanAppend(Stored(w), w.writer.current)
              && Stored(v) == WithItems(Stored(w), w.writer.current, [Pointer(w.writer.current + 1)])
    ensures ev == CloseSegment ==> Stored(v) == WithClosed(Stored(w), w.writer.current)
  {
    CurrentIsStored(w);
    var c := w.writer.current;
    match ev
    case CreateSuccessor =>
      if c + 1 == |w.segs| {
        StoredPut(w, v, c + 1, Segment([], false));
      }
    case AppendPointer => StoredPut(w, v, c, v.segs[c]);
    case CloseSegment => StoredPut(w, v, c, v.segs[c]);
    case _ =>
  }

  /** Each rotation step of the machine, taken where `landed` actions on `before` have led, leads to the
      effect of one action more. */
  lemma RotationIsRotateEffect(w: Log, ev: Event, v: Log, before: Segments)
    requires Inv(w) && WriterStep(w, ev, v)
    requires ev == CreateSuccessor || ev == AppendPointer || ev == CloseSegment
    ensures w.writer.Up?
    ensures var n := w.writer.current;
            && (ev == CreateSuccessor && Stored(w) == before ==> Stored(v) == RotateEffect(before, n, 1))
            && (ev == AppendPointer && Stored(w) == RotateEffect(before, n, 1) ==> Stored(v) == RotateEffect(before, n, 2))
            && (ev == CloseSegment && CanAppend(before, n) && Stored(w) == RotateEffect(before, n, 2) ==>
                  Stored(v) == RotateEffect(before, n, 3))
  {
    RotationStepsAreActions(w, ev, v);
  }
}
