/**
 Persisted writer ownership: one row, changed only by compare-and-set statements. A call is a
 statement followed, where the statement found nothing to change, by a separate read; other calls run
 in between, and a caller may give up while its statement is still on its way.
 */
module Ownership {
  import opened Basics

  datatype Phase = Active | Quiesced

  datatype Row = Row(generation: int, owner: string, phase: Phase,
                     handoff: Option<string>, receipt: Option<string>)

  datatype Request =
    | Claim(revision: string, initialActive: bool)
    | Quiesce(owner: string, generation: int, handoff: string, receipt: string)
    | Promote(successor: string, owner: string, generation: int, handoff: string, receipt: string)

  /** `Standby` is only a claim's answer, `Conflict` only the others'. */
  datatype Answer = Granted(row: Row) | Standby(seen: Option<Row>) | Conflict

  /** Whether the request's statement changes the row it finds. */
  predicate Fires(request: Request, row: Option<Row>) {
    match request
    case Claim(_, initialActive) => initialActive && row.None?
    case Quiesce(owner, generation, _, _) =>
      row.Some? && row.value.owner == owner && row.value.generation == generation && row.value.phase.Active?
    case Promote(_, owner, generation, handoff, receipt) =>
      && row.Some? && row.value.owner == owner && row.value.generation == generation && row.value.phase.Quiesced?
      && row.value.handoff == Some(handoff) && row.value.receipt == Some(receipt)
  }

  function After(request: Request, row: Option<Row>): Row
    requires Fires(request, row)
  {
    match request
    case Claim(revision, _) => Row(1, revision, Active, None, None)
    case Quiesce(_, _, handoff, receipt) =>
      row.value.(phase := Quiesced, handoff := Some(handoff), receipt := Some(receipt))
    case Promote(successor, _, _, _, _) =>
      row.value.(owner := successor, generation := row.value.generation + 1, phase := Active)
  }

  /** What the caller asked the row to be. */
  predicate Meets(request: Request, row: Row) {
    match request
    case Claim(revision, _) => row.phase.Active? && row.owner == revision
    case Quiesce(owner, generation, handoff, receipt) =>
      && row.phase.Quiesced? && row.owner == owner && row.generation == generation
      && row.handoff == Some(handoff) && row.receipt == Some(receipt)
    case Promote(successor, _, generation, handoff, receipt) =>
      && row.phase.Active? && row.owner == successor && row.generation == generation + 1
      && row.handoff == Some(handoff) && row.receipt == Some(receipt)
  }

  /** The answer after reading the row. */
  function Judge(request: Request, row: Option<Row>): Answer {
    if row.Some? && Meets(request, row.value) then Granted(row.value)
    else if request.Claim? then Standby(row)
    else Conflict
  }

  lemma WritingMeets(request: Request, row: Option<Row>)
    requires Fires(request, row)
    ensures Meets(request, After(request, row))
  {
  }

  // ---- The table, called by one process at a time -------------------------------------------------

  class OwnershipTable {
    var row: Option<Row>

    constructor ()
      ensures row == None
    {
      row := None;
    }

    /** The statements: they return the row they wrote. */
    method InsertIfAbsent(revision: string) returns (written: Option<Row>)
      modifies this
      ensures written.Some? <==> old(row).None?
      ensures written.Some? ==> row == written && row.value == After(Claim(revision, true), old(row))
      ensures written.None? ==> row == old(row)
    {
      written := None;
      if row.None? {
        row := Some(Row(1, revision, Active, None, None));
        written := row;
      }
    }

    method UpdateToQuiesced(owner: string, generation: int, handoff: string, receipt: string)
      returns (written: Option<Row>)
      modifies this
      ensures written.Some? <==> Fires(Quiesce(owner, generation, handoff, receipt), old(row))
      ensures written.Some? ==> row == written
                                && row.value == After(Quiesce(owner, generation, handoff, receipt), old(row))
      ensures written.None? ==> row == old(row)
    {
      written := None;
      if row.Some? && row.value.owner == owner && row.value.generation == generation && row.value.phase.Active? {
        row := Some(row.value.(phase := Quiesced, handoff := Some(handoff), receipt := Some(receipt)));
        written := row;
      }
    }

    method UpdateToPromoted(successor: string, owner: string, generation: int, handoff: string, receipt: string)
      returns (written: Option<Row>)
      modifies this
      ensures written.Some? <==> Fires(Promote(successor, owner, generation, handoff, receipt), old(row))
      ensures written.Some? ==> row == written
                                && row.value == After(Promote(successor, owner, generation, handoff, receipt), old(row))
      ensures written.None? ==> row == old(row)
    {
      written := None;
      if row.Some? && row.value.owner == owner && row.value.generation == generation && row.value.phase.Quiesced?
         && row.value.handoff == Some(handoff) && row.value.receipt == Some(receipt)
      {
        row := Some(row.value.(owner := successor, generation := generation + 1, phase := Active));
        written := row;
      }
    }

    /** With nobody in between, the answer is `Active` exactly if the row is then this revision's. */
    method ClaimOrObserve(revision: string, initialActive: bool) returns (answer: Answer)
      modifies this
      ensures answer.Granted? <==> row.Some? && Meets(Claim(revision, initialActive), row.value)
      ensures answer.Granted? ==> row == Some(answer.row)
      ensures !answer.Granted? ==> answer == Standby(row)
      ensures row == if old(row).None? && initialActive then Some(Row(1, revision, Active, None, None)) else old(row)
    {
      if initialActive {
        var inserted := InsertIfAbsent(revision);
        if inserted.Some? {
          return Granted(inserted.value);
        }
      }
      if row.Some? && row.value.phase.Active? && row.value.owner == revision {
        answer := Granted(row.value);
      } else {
        answer := Standby(row);
      }
    }

    method QuiesceOwner(owner: string, generation: int, handoff: string, receipt: string)
      returns (answer: Answer)
      modifies this
      ensures answer.Granted? <==> row.Some? && Meets(Quiesce(owner, generation, handoff, receipt), row.value)
      ensures answer == if answer.Granted? then Granted(row.value) else Conflict
      ensures row == if old(row).Some? && old(row).value.phase.Active? && old(row).value.owner == owner
                        && old(row).value.generation == generation
                     then Some(Row(generation, owner, Quiesced, Some(handoff), Some(receipt)))
                     else old(row)
    {
      var written := UpdateToQuiesced(owner, generation, handoff, receipt);
      if written.Some? {
        return Granted(written.value);
      }
      if row.Some? && row.value.phase.Quiesced? && row.value.owner == owner && row.value.generation == generation
         && row.value.handoff == Some(handoff) && row.value.receipt == Some(receipt)
      {
        answer := Granted(row.value);
      } else {
        answer := Conflict;
      }
    }

    method PromoteSuccessor(successor: string, owner: string, generation: int, handoff: string, receipt: string)
      returns (answer: Answer)
      modifies this
      ensures answer.Granted? <==>
              row.Some? && Meets(Promote(successor, owner, generation, handoff, receipt), row.value)
      ensures answer == if answer.Granted? then Granted(row.value) else Conflict
      ensures row == if old(row) == Some(Row(generation, owner, Quiesced, Some(handoff), Some(receipt)))
                     then Some(Row(generation + 1, successor, Active, Some(handoff), Some(receipt)))
                     else old(row)
    {
      var written := UpdateToPromoted(successor, owner, generation, handoff, receipt);
      if written.Some? {
        return Granted(written.value);
      }
      if row.Some? && row.value.phase.Active? && row.value.owner == successor && row.value.generation == generation + 1
         && row.value.handoff == Some(handoff) && row.value.receipt == Some(receipt)
      {
        answer := Granted(row.value);
      } else {
        answer := Conflict;
      }
    }
  }

  // ---- Many processes -----------------------------------------------------------------------------

  /** `at` and `missed` are instants, that is, positions in the row's history. */
  datatype Stage =
    | Sent
    | Missed(missed: nat)
    | Done(answer: Answer, missed: nat, at: nat)
    | GivenUp(pending: bool)

  datatype Call = Call(request: Request, begun: nat, stage: Stage)

  /** The row over time, who wrote each version, and every call made. */
  datatype State = State(history: seq<Option<Row>>, writers: seq<nat>, calls: seq<Call>)

  datatype Step =
    | Begin(request: Request)
    | Execute(c: nat)
    | ReadBack(c: nat)
    | GiveUp(c: nat)
    | ExecuteLate(c: nat)

  predicate Enabled(s: State, step: Step) {
    && s.history != []
    && (!step.Begin? ==> step.c < |s.calls|)
    && match step
       case Begin(_) => true
       case Execute(c) => s.calls[c].stage.Sent?
       case ReadBack(c) => s.calls[c].stage.Missed?
       case GiveUp(c) => s.calls[c].stage.Sent? || s.calls[c].stage.Missed?
       case ExecuteLate(c) => s.calls[c].stage.GivenUp? && s.calls[c].stage.pending
  }

  function Now(s: State): nat
    requires s.history != []
  {
    |s.history| - 1
  }

  function Moved(s: State, c: nat, stage: Stage): State
    requires c < |s.calls|
  {
    s.(calls := s.calls[c := s.calls[c].(stage := stage)])
  }

  function Wrote(s: State, c: nat): State
    requires s.history != [] && c < |s.calls| && Fires(s.calls[c].request, s.history[Now(s)])
  {
    s.(history := s.history + [Some(After(s.calls[c].request, s.history[Now(s)]))], writers := s.writers + [c])
  }

  function Next(s: State, step: Step): State
    requires Enabled(s, step)
  {
    var now := Now(s);
    match step
    case Begin(request) => s.(calls := s.calls + [Call(request, now, Sent)])
    case Execute(c) =>
      var request := s.calls[c].request;
      if Fires(request, s.history[now])
      then Moved(Wrote(s, c), c, Done(Granted(After(request, s.history[now])), now, now + 1))
      else Moved(s, c, Missed(now))
    case ReadBack(c) =>
      Moved(s, c, Done(Judge(s.calls[c].request, s.history[now]), s.calls[c].stage.missed, now))
    case GiveUp(c) => Moved(s, c, GivenUp(s.calls[c].stage.Sent?))
    case ExecuteLate(c) =>
      var gone := Moved(s, c, GivenUp(false));
      if Fires(s.calls[c].request, s.history[now]) then Wrote(gone, c) else gone
  }

  /** Version `k` was written over version `k - 1` by the call recorded for it. */
  predicate WrittenBy(s: State, k: nat) {
    && 0 < k < |s.history| && |s.writers| == |s.history| - 1 && s.writers[k - 1] < |s.calls|
    && Fires(s.calls[s.writers[k - 1]].request, s.history[k - 1])
    && s.history[k] == Some(After(s.calls[s.writers[k - 1]].request, s.history[k - 1]))
  }

  /** What a call's stage says about the row during the call. */
  predicate CallOk(s: State, c: nat)
    requires c < |s.calls|
  {
    var call := s.calls[c];
    && call.begun < |s.history|
    && match call.stage
       case Sent => true
       case Missed(missed) =>
         call.begun <= missed < |s.history| && !Fires(call.request, s.history[missed])
       case Done(answer, missed, at) =>
         && call.begun <= missed <= at < |s.history|
         && (if answer.Granted? then s.history[at] == Some(answer.row) && Meets(call.request, answer.row)
             else && !Fires(call.request, s.history[missed])
                  && answer == Judge(call.request, s.history[at]))
       case GivenUp(_) => true
  }

  predicate Inv(s: State) {
    && s.history != [] && s.history[0] == None && |s.writers| == |s.history| - 1
    && (forall k | 0 < k < |s.history| :: WrittenBy(s, k))
    && (forall c | 0 <= c < |s.calls| :: CallOk(s, c))
  }

  /** Calls keep their requests and start; only the history's end and later calls are new. */
  predicate Extends(s: State, t: State) {
    && s.history <= t.history && s.writers <= t.writers && |s.calls| <= |t.calls|
    && forall c | 0 <= c < |s.calls| :: t.calls[c].request == s.calls[c].request && t.calls[c].begun == s.calls[c].begun
  }

  lemma NextExtends(s: State, step: Step)
    requires Enabled(s, step)
    ensures Extends(s, Next(s, step))
  {
  }

  lemma WrittenByStays(s: State, t: State, k: nat)
    requires WrittenBy(s, k) && Extends(s, t) && |t.writers| == |t.history| - 1
    ensures WrittenBy(t, k)
  {
    assert t.history[k] == s.history[k] && t.history[k - 1] == s.history[k - 1] && t.writers[k - 1] == s.writers[k - 1];
  }

  lemma StepKeepsHistory(s: State, step: Step)
    requires Inv(s) && Enabled(s, step)
    ensures var t := Next(s, step);
            && t.history != [] && t.history[0] == None && |t.writers| == |t.history| - 1
            && forall k | 0 < k < |t.history| :: WrittenBy(t, k)
  {
    var t := Next(s, step);
    NextExtends(s, step);
    assert t.history[0] == s.history[0];
    forall k | 0 < k < |t.history| ensures WrittenBy(t, k) {
      if k < |s.history| {
        WrittenByStays(s, t, k);
      }
    }
  }

  lemma StepKeepsCall(s: State, step: Step, c: nat)
    requires Inv(s) && Enabled(s, step) && c < |Next(s, step).calls|
    ensures CallOk(Next(s, step), c)
  {
    var t := Next(s, step);
    NextExtends(s, step);
    if c < |s.calls| {
      assert CallOk(s, c);
      assert forall k | 0 <= k < |s.history| :: t.history[k] == s.history[k];
      if step.Execute? && step.c == c && Fires(s.calls[c].request, s.history[Now(s)]) {
        WritingMeets(s.calls[c].request, s.history[Now(s)]);
      }
    }
  }

  lemma StepKeepsInv(s: State, step: Step)
    requires Inv(s) && Enabled(s, step)
    ensures Inv(Next(s, step))
  {
    StepKeepsHistory(s, step);
    forall c | 0 <= c < |Next(s, step).calls| ensures CallOk(Next(s, step), c) {
      StepKeepsCall(s, step, c);
    }
  }

  const START := State([None], [], [])

  ghost predicate Run(states: seq<State>, steps: seq<Step>) {
    && |states| == |steps| + 1 && states[0] == START
    && forall i | 0 <= i < |steps| :: RunStep(states, steps, i)
  }

  ghost predicate RunStep(states: seq<State>, steps: seq<Step>, i: nat) {
    && i < |steps| && i + 1 < |states|
    && Enabled(states[i], steps[i]) && states[i + 1] == Next(states[i], steps[i])
  }

  lemma {:induction false} RunKeepsInv(states: seq<State>, steps: seq<Step>, i: nat)
    requires Run(states, steps) && i < |states|
    ensures Inv(states[i])
  {
    if i > 0 {
      RunKeepsInv(states, steps, i - 1);
      assert RunStep(states, steps, i - 1);
      StepKeepsInv(states[i - 1], steps[i - 1]);
    }
  }

  // ---- What follows -------------------------------------------------------------------------------

  /** The row's version says its generation and phase: each generation is active for one version, then
      quiesced for one. */
  lemma {:induction false} VersionIsGenerationAndPhase(s: State, k: nat)
    requires Inv(s) && k < |s.history|
    ensures k == 0 <==> s.history[k].None?
    ensures s.history[k].Some? ==>
              k + 1 == 2 * s.history[k].value.generation + (if s.history[k].value.phase.Quiesced? then 1 else 0)
  {
    if k > 0 {
      VersionIsGenerationAndPhase(s, k - 1);
      assert WrittenBy(s, k);
    }
  }

  /** The generation rises only by one, and only by a promote that names the owner, generation, handoff
      and receipt on record. */
  lemma GenerationRisesByPromoteOnly(s: State, k: nat)
    requires Inv(s) && 0 < k && k + 1 < |s.history|
    ensures s.history[k].Some? && s.history[k + 1].Some?
    ensures var was, now := s.history[k].value, s.history[k + 1].value;
            now.generation != was.generation ==>
              && now.generation == was.generation + 1
              && was.phase.Quiesced? && now.phase.Active?
              && was.handoff.Some? && was.receipt.Some?
              && s.writers[k] < |s.calls|
              && s.calls[s.writers[k]].request ==
                 Promote(now.owner, was.owner, was.generation, was.handoff.value, was.receipt.value)
  {
    VersionIsGenerationAndPhase(s, k);
    assert WrittenBy(s, k + 1);
  }

  lemma OneOwnerPerGeneration(s: State, i: nat, j: nat)
    requires Inv(s) && i <= j < |s.history| && s.history[i].Some? && s.history[j].Some?
    requires s.history[i].value.generation == s.history[j].value.generation
    ensures s.history[i].value.owner == s.history[j].value.owner
    ensures s.history[i].value.phase == s.history[j].value.phase ==> i == j
  {
    VersionIsGenerationAndPhase(s, i);
    VersionIsGenerationAndPhase(s, j);
    if i < j {
      assert j == i + 1 && WrittenBy(s, j);
    }
  }

  /** A granted call: the row was what it asked for at an instant between its start and its answer. */
  lemma GrantedMeansHeld(s: State, c: nat)
    requires Inv(s) && c < |s.calls| && s.calls[c].stage.Done? && s.calls[c].stage.answer.Granted?
    ensures var call := s.calls[c];
            exists k | call.begun <= k <= call.stage.at ::
              k < |s.history| && s.history[k] == Some(call.stage.answer.row) && Meets(call.request, call.stage.answer.row)
  {
    assert CallOk(s, c);
  }

  /** A conflict: at one instant of the call the statement had nothing to change, and at a later one the
      row was not what the call asked for. */
  lemma ConflictMeansNotHeld(s: State, c: nat)
    requires Inv(s) && c < |s.calls| && s.calls[c].stage.Done? && s.calls[c].stage.answer.Conflict?
    ensures var call := s.calls[c];
            exists i, k | call.begun <= i <= k <= call.stage.at ::
              && k < |s.history| && !Fires(call.request, s.history[i])
              && (s.history[k].None? || !Meets(call.request, s.history[k].value))
  {
    assert CallOk(s, c);
    var call := s.calls[c];
    assert !Fires(call.request, s.history[call.stage.missed]);
    assert s.history[call.stage.at].None? || !Meets(call.request, s.history[call.stage.at].value);
  }

  /** A call that is refused is told so in its own terms: a claim stands by and sees the row as it was at an
      instant of the call, at which it was not the claimant's; a quiesce or promote has a conflict. */
  lemma RefusalTells(s: State, c: nat)
    requires Inv(s) && c < |s.calls| && s.calls[c].stage.Done? && !s.calls[c].stage.answer.Granted?
    ensures var call := s.calls[c];
            if call.request.Claim? then
              && call.stage.answer.Standby? && call.begun <= call.stage.at < |s.history|
              && call.stage.answer.seen == s.history[call.stage.at]
              && (call.stage.answer.seen.None? || !Meets(call.request, call.stage.answer.seen.value))
            else call.stage.answer.Conflict?
  {
    assert CallOk(s, c);
  }

  /** Two promotes granted from one generation name the same successor, handoff and receipt, and got the
      same row. */
  lemma OneSuccessorPerGeneration(s: State, c: nat, d: nat)
    requires Inv(s) && c < |s.calls| && d < |s.calls|
    requires s.calls[c].request.Promote? && s.calls[d].request.Promote?
    requires s.calls[c].request.generation == s.calls[d].request.generation
    requires s.calls[c].stage.Done? && s.calls[c].stage.answer.Granted?
    requires s.calls[d].stage.Done? && s.calls[d].stage.answer.Granted?
    ensures s.calls[c].stage.answer == s.calls[d].stage.answer
    ensures s.calls[c].request.successor == s.calls[d].request.successor
    ensures s.calls[c].request.handoff == s.calls[d].request.handoff
    ensures s.calls[c].request.receipt == s.calls[d].request.receipt
  {
    assert CallOk(s, c) && CallOk(s, d);
    var i, j := s.calls[c].stage.at, s.calls[d].stage.at;
    VersionIsGenerationAndPhase(s, i);
    VersionIsGenerationAndPhase(s, j);
  }

  /** At most one revision is told that it owns a generation's writing, by claims and promotes alike. */
  lemma OneActiveRevisionPerGeneration(s: State, c: nat, d: nat)
    requires Inv(s) && c < |s.calls| && d < |s.calls|
    requires !s.calls[c].request.Quiesce? && !s.calls[d].request.Quiesce?
    requires s.calls[c].stage.Done? && s.calls[c].stage.answer.Granted?
    requires s.calls[d].stage.Done? && s.calls[d].stage.answer.Granted?
    requires s.calls[c].stage.answer.row.generation == s.calls[d].stage.answer.row.generation
    ensures s.calls[c].stage.answer.row == s.calls[d].stage.answer.row
  {
    assert CallOk(s, c) && CallOk(s, d);
    VersionIsGenerationAndPhase(s, s.calls[c].stage.at);
    VersionIsGenerationAndPhase(s, s.calls[d].stage.at);
  }

  /** A promote or quiesce whose answer was lost can be sent again: while the row is still what it asked
      for, the second call changes nothing and is granted the same row. */
  lemma RetryIsGranted(s: State, request: Request)
    requires Inv(s) && s.history[Now(s)].Some? && Meets(request, s.history[Now(s)].value)
    ensures var c := |s.calls|;
            var sent := Next(s, Begin(request));
            var missed := Next(sent, Execute(c));
            && Enabled(sent, Execute(c)) && Enabled(missed, ReadBack(c))
            && var told := Next(missed, ReadBack(c));
            && told.history == s.history
            && told.calls[c].stage.Done? && told.calls[c].stage.answer == Granted(s.history[Now(s)].value)
  {
  }

  /** A caller that gives up on a call it has sent cannot know: the statement may yet run, and then the row
      is as asked, written over whatever it finds it can change; or it has nothing left to change. Sent
      again, the request is then granted that row. */
  lemma LateStatementCounts(s: State, c: nat)
    requires Inv(s) && c < |s.calls| && s.calls[c].stage.Sent?
    ensures Enabled(s, GiveUp(c)) && Enabled(Next(s, GiveUp(c)), ExecuteLate(c))
    ensures var late := Next(Next(s, GiveUp(c)), ExecuteLate(c));
            var request := s.calls[c].request;
            if Fires(request, s.history[Now(s)]) then
              && Now(late) == Now(s) + 1 && late.history[Now(late)].Some?
              && Meets(request, late.history[Now(late)].value)
              && var told := Next(Next(Next(late, Begin(request)), Execute(|late.calls|)), ReadBack(|late.calls|));
                 told.calls[|late.calls|].stage.Done?
                 && told.calls[|late.calls|].stage.answer == Granted(late.history[Now(late)].value)
            else late.history == s.history
  {
    var request := s.calls[c].request;
    var late := Next(Next(s, GiveUp(c)), ExecuteLate(c));
    StepKeepsInv(s, GiveUp(c));
    StepKeepsInv(Next(s, GiveUp(c)), ExecuteLate(c));
    if Fires(request, s.history[Now(s)]) {
      WritingMeets(request, s.history[Now(s)]);
      RetryIsGranted(late, request);
    }
  }
}
