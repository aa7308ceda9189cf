/**
 The primary-key interner: a forward table, a reverse table, and an insert that reads without the write
 lock, then checks again under it. Ids are 32 bits wide.
 */
module PkDict {
  import opened Basics

  const IDS := 0x1_0000_0000

  /** Each key's id leads back to it. */
  ghost predicate ForwardOk(forward: map<string, nat>, reverse: seq<string>) {
    forall pk | pk in forward :: forward[pk] < |reverse| && reverse[forward[pk]] == pk
  }

  /** Each of the first `n` ids is its key's id. */
  ghost predicate ReverseOk(forward: map<string, nat>, reverse: seq<string>, n: nat) {
    n <= |reverse| && forall i | 0 <= i < n :: reverse[i] in forward && forward[reverse[i]] == i
  }

  function MintedId(reverse: seq<string>): nat {
    |reverse| % IDS
  }

  /** A new key keeps the tables inverse exactly while the id fits. */
  lemma MintKeepsInverseIff(forward: map<string, nat>, reverse: seq<string>, pk: string)
    requires ForwardOk(forward, reverse) && ReverseOk(forward, reverse, |reverse|) && pk !in forward
    ensures ForwardOk(forward[pk := MintedId(reverse)], reverse + [pk])
            && ReverseOk(forward[pk := MintedId(reverse)], reverse + [pk], |reverse| + 1)
            <==> |reverse| < IDS
  {
    var f, r := forward[pk := MintedId(reverse)], reverse + [pk];
    if |reverse| < IDS {
      assert forall i | 0 <= i < |reverse| :: r[i] == reverse[i];
    } else {
      assert r[|reverse|] == pk && f[pk] != |reverse|;
    }
  }

  class Dict {
    var forward: map<string, nat>
    var reverse: seq<string>

    ghost predicate Valid()
      reads this
    {
      ForwardOk(forward, reverse) && ReverseOk(forward, reverse, |reverse|)
    }

    constructor ()
      ensures Valid() && reverse == []
    {
      forward, reverse := map[], [];
    }

    /** Mints at most one id, at the end, and only for a key that has none; past the last id it wraps. */
    method GetOrInsert(pk: string) returns (id: nat)
      requires Valid()
      modifies this
      ensures reverse == if pk in old(reverse) then old(reverse) else old(reverse) + [pk]
      ensures Valid() <==> pk in old(reverse) || |old(reverse)| < IDS
      ensures Valid() ==> id < |reverse| && reverse[id] == pk
      ensures !Valid() ==> id == |old(reverse)| % IDS
    {
      if pk in forward {
        assert reverse[forward[pk]] == pk;
        return forward[pk];
      }
      assert forall i | 0 <= i < |reverse| :: reverse[i] != pk;
      MintKeepsInverseIff(forward, reverse, pk);
      id := |reverse| % IDS;
      reverse := reverse + [pk];
      forward := forward[pk := id];
    }

    method Get(pk: string) returns (id: Option<nat>)
      requires Valid()
      ensures id.Some? <==> pk in reverse
      ensures id.Some? ==> id.value < |reverse| && reverse[id.value] == pk
    {
      if pk in forward {
        assert reverse[forward[pk]] == pk;
        id := Some(forward[pk]);
      } else {
        assert forall i | 0 <= i < |reverse| :: reverse[i] != pk;
        id := None;
      }
    }

    method ResolveId(id: nat) returns (pk: Option<string>)
      requires Valid()
      ensures pk == Resolve(reverse, id)
      ensures pk.Some? ==> pk.value in forward && forward[pk.value] == id
    {
      pk := if id < |reverse| then Some(reverse[id]) else None;
    }
  }

  function Resolve(reverse: seq<string>, id: nat): Option<string> {
    if id < |reverse| then Some(reverse[id]) else None
  }

  // ---- Many threads -------------------------------------------------------------------------------

  /** A call of `get_or_insert`. `Locked` and `Pushed` hold the forward table's write lock. */
  datatype Call =
    | Asked(pk: string)
    | Missed(pk: string)
    | Locked(pk: string)
    | Pushed(pk: string, id: nat)
    | Done(pk: string, id: nat)

  datatype State = State(forward: map<string, nat>, reverse: seq<string>, holder: Option<nat>, calls: seq<Call>)

  datatype Step =
    | Begin(pk: string)
    | FastRead(c: nat)
    | LockAndRecheck(c: nat)
    | Push(c: nat)
    | Insert(c: nat)

  predicate Enabled(s: State, step: Step) {
    match step
    case Begin(_) => true
    case FastRead(c) => c < |s.calls| && s.calls[c].Asked? && s.holder.None?
    case LockAndRecheck(c) => c < |s.calls| && s.calls[c].Missed? && s.holder.None?
    case Push(c) => c < |s.calls| && s.calls[c].Locked?
    case Insert(c) => c < |s.calls| && s.calls[c].Pushed?
  }

  function Next(s: State, step: Step): State
    requires Enabled(s, step)
  {
    match step
    case Begin(pk) => s.(calls := s.calls + [Asked(pk)])
    case FastRead(c) =>
      var pk := s.calls[c].pk;
      s.(calls := s.calls[c := if pk in s.forward then Done(pk, s.forward[pk]) else Missed(pk)])
    case LockAndRecheck(c) =>
      var pk := s.calls[c].pk;
      if pk in s.forward then s.(calls := s.calls[c := Done(pk, s.forward[pk])])
      else s.(calls := s.calls[c := Locked(pk)], holder := Some(c))
    case Push(c) =>
      var pk := s.calls[c].pk;
      s.(reverse := s.reverse + [pk], calls := s.calls[c := Pushed(pk, MintedId(s.reverse))])
    case Insert(c) =>
      var call := s.calls[c];
      s.(forward := s.forward[call.pk := call.id], holder := None, calls := s.calls[c := Done(call.pk, call.id)])
  }

  /** The id a key already has is never given to another, whatever a call is in the middle of. */
  predicate CallOk(s: State, c: nat)
    requires c < |s.calls|
  {
    match s.calls[c]
    case Asked(_) => true
    case Missed(_) => true
    case Locked(pk) => s.holder == Some(c) && pk !in s.forward
    case Pushed(pk, id) =>
      s.holder == Some(c) && pk !in s.forward && |s.reverse| == id + 1 && s.reverse[id] == pk
    case Done(pk, id) => pk in s.forward && s.forward[pk] == id
  }

  predicate Minting(s: State) {
    s.holder.Some? && s.holder.value < |s.calls| && s.calls[s.holder.value].Pushed?
  }

  ghost predicate Inv(s: State) {
    && ForwardOk(s.forward, s.reverse)
    && (Minting(s) ==> s.reverse != [])
    && ReverseOk(s.forward, s.reverse, if Minting(s) then |s.reverse| - 1 else |s.reverse|)
    && (s.holder.Some? ==> s.holder.value < |s.calls|
                           && (s.calls[s.holder.value].Locked? || s.calls[s.holder.value].Pushed?))
    && forall c | 0 <= c < |s.calls| :: CallOk(s, c)
  }

  lemma StepKeepsTables(s: State, step: Step)
    requires Inv(s) && Enabled(s, step) && |Next(s, step).reverse| <= IDS
    ensures var t := Next(s, step);
            && ForwardOk(t.forward, t.reverse)
            && (Minting(t) ==> t.reverse != [])
            && ReverseOk(t.forward, t.reverse, if Minting(t) then |t.reverse| - 1 else |t.reverse|)
            && (t.holder.Some? ==> t.holder.value < |t.calls|
                                   && (t.calls[t.holder.value].Locked? || t.calls[t.holder.value].Pushed?))
  {
    if !step.Begin? {
      assert CallOk(s, step.c);
    }
  }

  lemma StepKeepsCall(s: State, step: Step, c: nat)
    requires Inv(s) && Enabled(s, step) && |Next(s, step).reverse| <= IDS && c < |Next(s, step).calls|
    ensures CallOk(Next(s, step), c)
  {
    if c < |s.calls| {
      assert CallOk(s, c);
    }
    if !step.Begin? {
      assert CallOk(s, step.c);
    }
  }

  lemma StepKeepsInv(s: State, step: Step)
    requires Inv(s) && Enabled(s, step) && |Next(s, step).reverse| <= IDS
    ensures Inv(Next(s, step))
    ensures s.reverse <= Next(s, step).reverse
  {
    StepKeepsTables(s, step);
    forall c | 0 <= c < |Next(s, step).calls| ensures CallOk(Next(s, step), c) {
      StepKeepsCall(s, step, c);
    }
  }

  ghost predicate RunStep(states: seq<State>, steps: seq<Step>, i: nat) {
    && i < |steps| && i + 1 < |states|
    && Enabled(states[i], steps[i]) && states[i + 1] == Next(states[i], steps[i])
    && |states[i + 1].reverse| <= IDS
  }

  /** A run that never asks for more than 2^32 keys. */
  ghost predicate Run(states: seq<State>, steps: seq<Step>) {
    && |states| == |steps| + 1 && states[0] == State(map[], [], None, [])
    && forall i | 0 <= i < |steps| :: RunStep(states, steps, i)
  }

  lemma {:induction false} RunKeepsInv(states: seq<State>, steps: seq<Step>, i: nat)
    requires Run(states, steps) && i < |states|
    ensures Inv(states[i])
  {
    if i > 0 {
      RunKeepsInv(states, steps, i - 1);
      assert RunStep(states, steps, i - 1);
      StepKeepsInv(states[i - 1], steps[i - 1]);
    }
  }

  lemma {:induction false} ReverseOnlyGrows(states: seq<State>, steps: seq<Step>, i: nat, j: nat)
    requires Run(states, steps) && i <= j < |states|
    ensures states[i].reverse <= states[j].reverse
  {
    if i < j {
      ReverseOnlyGrows(states, steps, i, j - 1);
      RunKeepsInv(states, steps, j - 1);
      assert RunStep(states, steps, j - 1);
      StepKeepsInv(states[j - 1], steps[j - 1]);
    }
  }

  /** An id once returned resolves to its key in every later state, and no call, then or later, gets
      another id for that key or that id for another key. */
  lemma ReturnedIdsAreForever(states: seq<State>, steps: seq<Step>, i: nat, c: nat, j: nat, d: nat)
    requires Run(states, steps) && i <= j < |states|
    requires c < |states[i].calls| && states[i].calls[c].Done?
    requires d < |states[j].calls| && states[j].calls[d].Done?
    ensures Resolve(states[j].reverse, states[i].calls[c].id) == Some(states[i].calls[c].pk)
    ensures states[i].calls[c].pk == states[j].calls[d].pk <==> states[i].calls[c].id == states[j].calls[d].id
  {
    RunKeepsInv(states, steps, i);
    RunKeepsInv(states, steps, j);
    ReverseOnlyGrows(states, steps, i, j);
    assert CallOk(states[i], c) && CallOk(states[j], d);
    var pk, id := states[i].calls[c].pk, states[i].calls[c].id;
    assert states[j].reverse[id] == states[i].reverse[id] == pk;
    if states[j].calls[d].pk == pk && Minting(states[j]) {
      assert CallOk(states[j], states[j].holder.value);
    }
  }

  /** Whenever the forward table can be read, the tables are inverses and the ids dense from 0. */
  lemma ReadersSeeInverses(states: seq<State>, steps: seq<Step>, i: nat)
    requires Run(states, steps) && i < |states| && states[i].holder.None?
    ensures forall pk | pk in states[i].forward :: Resolve(states[i].reverse, states[i].forward[pk]) == Some(pk)
    ensures forall id | 0 <= id < |states[i].reverse| ::
              states[i].reverse[id] in states[i].forward && states[i].forward[states[i].reverse[id]] == id
  {
    RunKeepsInv(states, steps, i);
  }

  /** The steps a call has left at most. */
  function Left(call: Call): nat {
    match call
    case Asked(_) => 4
    case Missed(_) => 3
    case Locked(_) => 2
    case Pushed(_, _) => 1
    case Done(_, _) => 0
  }

  function LeftInAll(calls: seq<Call>): nat {
    if calls == [] then 0 else Left(calls[0]) + LeftInAll(calls[1..])
  }

  lemma {:induction false} LeftOfOne(calls: seq<Call>, c: nat, call: Call)
    requires c < |calls|
    ensures LeftInAll(calls[c := call]) == LeftInAll(calls) - Left(calls[c]) + Left(call)
  {
    if c > 0 {
      LeftOfOne(calls[1..], c - 1, call);
      assert calls[c := call][1..] == calls[1..][c - 1 := call];
    } else {
      assert calls[c := call][1..] == calls[1..];
    }
  }

  /** No call blocks for ever: a call can begin at any time, while one is under way some call under way
      has a step to take, and every such step leaves fewer of them. */
  lemma CallsFinish(s: State, step: Step, pk: string, c: nat)
    requires Inv(s) && c < |s.calls| && !s.calls[c].Done?
    ensures Enabled(s, Begin(pk)) && Next(s, Begin(pk)).calls == s.calls + [Asked(pk)]
    ensures exists next: Step :: !next.Begin? && Enabled(s, next)
    ensures !step.Begin? && Enabled(s, step) ==> LeftInAll(Next(s, step).calls) < LeftInAll(s.calls)
  {
    if s.holder.Some? {
      var h := s.holder.value;
      assert Enabled(s, Push(h)) || Enabled(s, Insert(h));
    } else {
      assert CallOk(s, c);
      assert Enabled(s, FastRead(c)) || Enabled(s, LockAndRecheck(c));
    }
    if !step.Begin? && Enabled(s, step) {
      LeftOfOne(s.calls, step.c, Next(s, step).calls[step.c]);
    }
  }

  /** One key too many: a second key gets id 0, which goes on resolving to the first. */
  lemma OneKeyTooMany(s: State, c: nat)
    requires Inv(s) && |s.reverse| == IDS && c < |s.calls| && s.calls[c].Locked?
    ensures var t := Next(Next(s, Push(c)), Insert(c));
            && t.calls[c] == Done(s.calls[c].pk, 0)
            && Resolve(t.reverse, 0) == Some(s.reverse[0]) && s.reverse[0] != s.calls[c].pk
  {
    assert CallOk(s, c);
    assert s.reverse[0] in s.forward;
  }
}
