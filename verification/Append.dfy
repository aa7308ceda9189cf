/**
 Appending to a shape stream through a storage service that loses answers and gives false ones. The
 retry loops are run against a list of rounds: what each attempt did to the stream, what the service
 answered, and what the follow-up questions would be told.
 */
module Append {
  import opened Basics
  import opened Streams

  /** `Gone` is 404, 410 or 409 with the closed mark; a failure is retried if the service was unavailable. */
  datatype Answer = Acked | Gone | Failed(unavailable: bool)

  datatype Head = Open | Closed | Missing | Unknown

  /** `landed`: the batch is on the stream, whatever the answer. `discard` is the reconciler's verdict. */
  datatype Round = Round(landed: bool, answer: Answer, discard: bool, head: Head, outOfTime: bool, stopping: bool)

  /** An acknowledged batch has landed. */
  predicate Honest(rounds: seq<Round>) {
    forall r | r in rounds :: r.answer.Acked? ==> r.landed
  }

  function Repeat(batch: seq<Envelope>, n: nat): seq<Envelope> {
    if n == 0 then [] else Repeat(batch, n - 1) + batch
  }

  /** How often the batch lands, and the result; `None` while the rounds do not decide it. */
  function Reliable(batch: seq<Envelope>, rounds: seq<Round>): (nat, Option<bool>)
    decreases |rounds|
  {
    if batch == [] then (0, Some(true))
    else if rounds == [] then (0, None)
    else
      var r := rounds[0];
      var here := if r.landed then 1 else 0;
      if r.answer.Acked? then (here, Some(true))
      else if r.answer.Gone? && r.discard then (here, Some(false))
      else
        var later := Reliable(batch, rounds[1..]);
        (here + later.0, later.1)
  }

  /** Why a bounded retry ends. */
  datatype Ending = Done | Retired | Refused | StreamGone | OutOfTime | Stopped

  /** What one round of a bounded retry comes to; `None` is another attempt. */
  function EndsWith(r: Round): Option<Ending> {
    if r.answer.Acked? then Some(Done)
    else if r.answer.Gone? && (r.head.Closed? || r.head.Missing?) then Some(Retired)
    else if r.answer.Failed? && !r.answer.unavailable then Some(Refused)
    else if r.answer.Failed? && r.head.Missing? then Some(StreamGone)
    else if r.outOfTime then Some(OutOfTime)
    else if r.stopping then Some(Stopped)
    else None
  }

  function Retrying(batch: seq<Envelope>, rounds: seq<Round>): (nat, Option<Ending>)
    decreases |rounds|
  {
    if batch == [] then (0, Some(Done))
    else if rounds == [] then (0, None)
    else
      var r := rounds[0];
      var here := if r.landed then 1 else 0;
      if EndsWith(r).Some? then (here, EndsWith(r))
      else
        var later := Retrying(batch, rounds[1..]);
        (here + later.0, later.1)
  }

  /** The stream, and the bytes this process counts as appended to it (here, envelopes). */
  class StreamClient {
    var envs: seq<Envelope>
    var counted: nat

    method Post(batch: seq<Envelope>, r: Round)
      modifies this
      ensures envs == old(envs) + (if r.landed then batch else [])
      ensures counted == old(counted) + if r.answer.Acked? then |batch| else 0
    {
      if r.landed {
        envs := envs + batch;
      }
      if r.answer.Acked? {
        counted := counted + |batch|;
      }
    }

    method AppendReliable(batch: seq<Envelope>, rounds: seq<Round>) returns (outcome: Option<bool>)
      modifies this
      ensures outcome == Reliable(batch, rounds).1
      ensures batch == [] ==> outcome == Some(true) && envs == old(envs)
      ensures envs == old(envs) + Repeat(batch, Reliable(batch, rounds).0)
      ensures counted == old(counted) + if outcome == Some(true) then |batch| else 0
    {
      var i := 0;
      ghost var times := 0;
      assert rounds[0..] == rounds && envs + Repeat(batch, 0) == envs;
      if batch == [] {
        return Some(true);
      }
      while i < |rounds|
        invariant i <= |rounds| && counted == old(counted)
        invariant envs == old(envs) + Repeat(batch, times)
        invariant Reliable(batch, rounds) ==
                  (times + Reliable(batch, rounds[i..]).0, Reliable(batch, rounds[i..]).1)
      {
        var r := rounds[i];
        assert rounds[i..][0] == r && rounds[i..][1..] == rounds[i + 1..];
        RepeatOneMore(old(envs), batch, times);
        Post(batch, r);
        times := times + if r.landed then 1 else 0;
        if r.answer.Acked? {
          return Some(true);
        }
        if r.answer.Gone? && r.discard {
          return Some(false);
        }
        i := i + 1;
      }
      outcome := None;
    }

    method AppendRetrying(batch: seq<Envelope>, rounds: seq<Round>) returns (ending: Option<Ending>)
      modifies this
      ensures ending == Retrying(batch, rounds).1
      ensures batch == [] ==> ending == Some(Done) && envs == old(envs)
      ensures envs == old(envs) + Repeat(batch, Retrying(batch, rounds).0)
      ensures counted == old(counted) + if ending == Some(Done) then |batch| else 0
    {
      var i := 0;
      ghost var times := 0;
      assert rounds[0..] == rounds && envs + Repeat(batch, 0) == envs;
      if batch == [] {
        return Some(Done);
      }
      while i < |rounds|
        invariant i <= |rounds| && counted == old(counted)
        invariant envs == old(envs) + Repeat(batch, times)
        invariant Retrying(batch, rounds) ==
                  (times + Retrying(batch, rounds[i..]).0, Retrying(batch, rounds[i..]).1)
      {
        var r := rounds[i];
        assert rounds[i..][0] == r && rounds[i..][1..] == rounds[i + 1..];
        RepeatOneMore(old(envs), batch, times);
        Post(batch, r);
        times := times + if r.landed then 1 else 0;
        match r.answer {
          case Acked => return Some(Done);
          case Gone =>
            if r.head.Closed? || r.head.Missing? {
              return Some(Retired);
            }
          case Failed(unavailable) =>
            if !unavailable {
              return Some(Refused);
            }
            if r.head.Missing? {
              return Some(StreamGone);
            }
        }
        if r.outOfTime {
          return Some(OutOfTime);
        }
        if r.stopping {
          return Some(Stopped);
        }
        i := i + 1;
      }
      ending := None;
    }
  }

  lemma RepeatOneMore(envs: seq<Envelope>, batch: seq<Envelope>, n: nat)
    ensures envs + Repeat(batch, n) + batch == envs + Repeat(batch, n + 1)
    ensures envs + Repeat(batch, n) + [] == envs + Repeat(batch, n)
  {
    assert envs + Repeat(batch, n) + batch == envs + (Repeat(batch, n) + batch);
  }

  // ---- What readers see ---------------------------------------------------------------------------

  /** However often a batch landed, the rows are as if it landed once. */
  lemma {:induction false} LandedOnceOrMore(rows: Rows, envs: seq<Envelope>, batch: seq<Envelope>, n: nat)
    requires n > 0
    ensures Replay(rows, envs + Repeat(batch, n)) == Replay(rows, envs + batch)
  {
    if n == 1 {
      assert Repeat(batch, 0) + batch == batch;
    } else {
      LandedOnceOrMore(rows, envs, batch, n - 1);
      RepeatOneMore(envs, batch, n - 1);
      ReplayConcat(rows, envs + Repeat(batch, n - 1), batch);
      ReplayConcat(rows, envs + batch, batch);
      RepeatedBatchChangesNothing(rows, envs, batch);
    }
  }

  lemma {:induction false} AckedHasLanded(batch: seq<Envelope>, rounds: seq<Round>)
    requires Honest(rounds) && batch != []
    ensures Reliable(batch, rounds).1 == Some(true) ==> Reliable(batch, rounds).0 > 0
    ensures Retrying(batch, rounds).1 == Some(Done) ==> Retrying(batch, rounds).0 > 0
    decreases |rounds|
  {
    if rounds != [] {
      assert rounds[0] in rounds && forall r | r in rounds[1..] :: r in rounds;
      AckedHasLanded(batch, rounds[1..]);
    }
  }

  /** The reliable append loses nothing: it reports success only with the batch on the stream as far as
      any reader can tell, and gives up only on a round that said gone and that the reconciler confirmed;
      at any time readers see the stream without the batch or with it, never anything else. */
  lemma ReliableLosesNothing(envs: seq<Envelope>, batch: seq<Envelope>, rounds: seq<Round>)
    requires Honest(rounds)
    ensures var (times, outcome) := Reliable(batch, rounds);
            var rows := Replay(map[], envs + Repeat(batch, times));
            && (outcome == Some(true) ==> rows == Replay(map[], envs + batch))
            && (rows == Replay(map[], envs) || rows == Replay(map[], envs + batch))
    ensures Reliable(batch, rounds).1 == Some(false) ==> exists r | r in rounds :: r.answer.Gone? && r.discard
  {
    var times := Reliable(batch, rounds).0;
    if batch != [] {
      AckedHasLanded(batch, rounds);
      if Reliable(batch, rounds).1 == Some(false) {
        GivenUpWasGone(batch, rounds);
      }
    }
    if times > 0 {
      LandedOnceOrMore(map[], envs, batch, times);
    } else {
      assert envs + Repeat(batch, 0) == envs && (batch == [] ==> envs + batch == envs);
    }
  }

  lemma {:induction false} GivenUpWasGone(batch: seq<Envelope>, rounds: seq<Round>)
    requires batch != [] && Reliable(batch, rounds).1 == Some(false)
    ensures exists r | r in rounds :: r.answer.Gone? && r.discard
    decreases |rounds|
  {
    if rounds[0].answer.Gone? && rounds[0].discard {
      assert rounds[0] in rounds;
    } else {
      GivenUpWasGone(batch, rounds[1..]);
      assert forall r | r in rounds[1..] :: r in rounds;
    }
  }

  function Landings(rounds: seq<Round>): nat {
    if rounds == [] then 0 else (if rounds[0].landed then 1 else 0) + Landings(rounds[1..])
  }

  /** The reliable append ends with the first round that is acknowledged, or that is gone with the
      reconciler's consent, and with that round's result; without such a round it goes on. */
  lemma {:induction false} ReliableEndsForCause(batch: seq<Envelope>, rounds: seq<Round>) returns (i: nat)
    requires batch != []
    ensures i <= |rounds| && forall j | 0 <= j < i :: !rounds[j].answer.Acked? && !(rounds[j].answer.Gone? && rounds[j].discard)
    ensures i == |rounds| ==> Reliable(batch, rounds) == (Landings(rounds), None)
    ensures i < |rounds| ==>
              && (rounds[i].answer.Acked? || (rounds[i].answer.Gone? && rounds[i].discard))
              && Reliable(batch, rounds) == (Landings(rounds[..i + 1]), Some(rounds[i].answer.Acked?))
    decreases |rounds|
  {
    if rounds == [] {
      i := 0;
    } else if rounds[0].answer.Acked? || (rounds[0].answer.Gone? && rounds[0].discard) {
      i := 0;
      assert rounds[..1][1..] == [];
    } else {
      var k := ReliableEndsForCause(batch, rounds[1..]);
      i := k + 1;
      if i < |rounds| {
        assert rounds[..i + 1][1..] == rounds[1..][..k + 1];
      }
    }
  }

  /** The append may yet succeed: storage did not acknowledge it, and neither refused it nor, asked,
      denied the stream. */
  predicate Transient(r: Round) {
    || (r.answer.Gone? && (r.head.Open? || r.head.Unknown?))
    || (r.answer == Failed(true) && !r.head.Missing?)
  }

  /** The last round attempted, `i`, says why a bounded retry ends; no round before it did, and without
      such a round it goes on. The stream is given up for gone exactly if storage itself said so on that
      round's head request: missing, or closed after an append was told gone. A refusal, a deadline and a
      shutdown are reported as such. */
  lemma {:induction false} RetryEndsForCause(batch: seq<Envelope>, rounds: seq<Round>) returns (i: nat)
    requires batch != []
    ensures i <= |rounds|
    ensures forall j | 0 <= j < i :: Transient(rounds[j]) && !rounds[j].outOfTime && !rounds[j].stopping
    ensures Retrying(batch, rounds).0 == Landings(rounds[..if i < |rounds| then i + 1 else i])
    ensures Retrying(batch, rounds).1.None? <==> i == |rounds|
    ensures i < |rounds| ==>
              var ending, r := Retrying(batch, rounds).1.value, rounds[i];
              && (ending.Done? <==> r.answer.Acked?)
              && (ending.Retired? <==> r.answer.Gone? && (r.head.Closed? || r.head.Missing?))
              && (ending.StreamGone? <==> r.answer == Failed(true) && r.head.Missing?)
              && (ending.Refused? <==> r.answer == Failed(false))
              && (ending.OutOfTime? <==> Transient(r) && r.outOfTime)
              && (ending.Stopped? <==> Transient(r) && r.stopping && !r.outOfTime)
    decreases |rounds|
  {
    if rounds == [] {
      i := 0;
    } else if EndsWith(rounds[0]).Some? {
      i := 0;
      assert rounds[..1][1..] == [];
    } else {
      var k := RetryEndsForCause(batch, rounds[1..]);
      i := k + 1;
      if i < |rounds| {
        assert rounds[..i + 1][1..] == rounds[1..][..k + 1];
      } else {
        assert rounds[..i][1..] == rounds[1..][..k];
      }
    }
  }

  /** It goes on through any number of unavailable answers and false 404s while storage does not deny the
      stream: the first acknowledgement then ends it, with the batch seen once. */
  lemma {:induction false} RetryOutlastsOutage(envs: seq<Envelope>, batch: seq<Envelope>, outage: seq<Round>, ack: Round)
    requires batch != [] && ack.answer.Acked? && ack.landed
    requires forall r | r in outage ::
               && !r.answer.Acked? && (r.answer.Failed? ==> r.answer.unavailable)
               && (r.head.Open? || r.head.Unknown?) && !r.outOfTime && !r.stopping
    ensures var (times, ending) := Retrying(batch, outage + [ack]);
            && ending == Some(Done)
            && times > 0 && Replay(map[], envs + Repeat(batch, times)) == Replay(map[], envs + batch)
    decreases |outage|
  {
    var all := outage + [ack];
    if outage != [] {
      assert outage[0] in outage && forall r | r in outage[1..] :: r in outage;
      assert all[0] == outage[0] && all[1..] == outage[1..] + [ack];
      RetryOutlastsOutage(envs, batch, outage[1..], ack);
    }
    LandedOnceOrMore(map[], envs, batch, Retrying(batch, all).0);
  }
}
