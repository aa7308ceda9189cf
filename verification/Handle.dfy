/**
 One handle's life as a state machine: the stream grows and may be closed by retirement, requests take
 the handle's lock one at a time, and a request may be cancelled at either place it waits. `HandleState`
 is the object under the lock; its methods are the code between two waits.
 */
module Handle {
  import opened Basics
  import opened Streams
  import opened Fold
  import opened Adapter

  // ---- The locked state ---------------------------------------------------------------------------

  datatype Outcome = Served(offset: Offset, msgs: seq<Msg>, upToDate: bool) | Retired

  class HandleState {
    var keys: set<string>
    var offset: Offset

    constructor (keys: set<string>, offset: Offset)
      ensures this.keys == keys && this.offset == offset
    {
      this.keys, this.offset := keys, offset;
    }

    /** After the wait for the re-fold: both fields move together. */
    method Resync(requested: Offset, pages: seq<ReadResult>)
      modifies this
      ensures offset == requested
      ensures keys == if old(offset) == requested then old(keys) else Drive(KeyFold(requested), pages).rows.Keys
    {
      if offset != requested {
        var fold := new StreamFold.UpTo(requested);
        var _ := fold.DriveFold(pages);
        keys := fold.rows.Keys;
        offset := requested;
      }
    }

    /** After the wait for the read: a retired stream changes nothing, a page moves both fields. */
    method Commit(r: ReadResult, live: bool) returns (outcome: Outcome)
      modifies this
      ensures r.closed ==> outcome == Retired && keys == old(keys) && offset == old(offset)
      ensures !r.closed ==>
                && offset == (if r.nextOffset.Some? then r.nextOffset.value else old(offset))
                && keys == Classify(old(keys), r.envelopes).0
                && outcome == Served(offset, Classify(old(keys), r.envelopes).1, r.upToDate || (live && r.envelopes == []))
    {
      if r.closed {
        return Retired;
      }
      if r.nextOffset.Some? {
        offset := r.nextOffset.value;
      }
      if live && |r.envelopes| == 0 {
        return Served(offset, [], true);
      }
      var messages;
      keys, messages := ApplyChanges(keys, r.envelopes);
      outcome := Served(offset, messages, r.upToDate);
    }
  }

  // ---- The live poll ------------------------------------------------------------------------------

  function NoPage(): ReadResult {
    ReadResult([], None, false, false)
  }

  predicate Settles(r: ReadResult) {
    r.closed || r.envelopes != []
  }

  /** The poll over the answers it gets (`None` is the deadline, or shutdown): the page returned, and the
      offset the last read was asked from. */
  function Poll(from: Offset, last: ReadResult, answers: seq<Option<ReadResult>>): (ReadResult, Offset)
    decreases |answers|
  {
    if answers == [] || answers[0].None? then (last, from)
    else
      var page := answers[0].value;
      if Settles(page) then (page, from)
      else Poll(if page.nextOffset.Some? then page.nextOffset.value else from, page, answers[1..])
  }

  /** The poll ends at answer `i`: those before it are empty pages of an open stream, and it is the
      deadline, a page with envelopes, or a closed one; or the answers end there. */
  ghost predicate EndsAt(answers: seq<Option<ReadResult>>, i: nat) {
    && i <= |answers|
    && (forall j | 0 <= j < i :: answers[j].Some? && answers[j].value.envelopes == [] && !answers[j].value.closed)
    && (i < |answers| && answers[i].Some? ==> answers[i].value.envelopes != [] || answers[i].value.closed)
  }

  /** The last next offset given before answer `i`. */
  function AskedFrom(from: Offset, answers: seq<Option<ReadResult>>, i: nat): Offset
    requires i <= |answers|
  {
    if i == 0 then from
    else if answers[i - 1].Some? && answers[i - 1].value.nextOffset.Some? then answers[i - 1].value.nextOffset.value
    else AskedFrom(from, answers, i - 1)
  }

  lemma {:induction false} AskedFromTail(from: Offset, answers: seq<Option<ReadResult>>, i: nat)
    requires 0 < i <= |answers|
    ensures AskedFrom(from, answers, i) == AskedFrom(AskedFrom(from, answers, 1), answers[1..], i - 1)
  {
    if i > 1 {
      assert answers[1..][i - 2] == answers[i - 1];
      AskedFromTail(from, answers, i - 1);
    }
  }

  lemma {:induction false} PollEndsThere(from: Offset, last: ReadResult, answers: seq<Option<ReadResult>>, i: nat)
    requires EndsAt(answers, i)
    ensures Poll(from, last, answers).1 == AskedFrom(from, answers, i)
    ensures Poll(from, last, answers).0 ==
            if i < |answers| && answers[i].Some? then answers[i].value
            else if i == 0 then last
            else answers[i - 1].value
    decreases |answers|
  {
    if i > 0 {
      var page, rest := answers[0].value, answers[1..];
      forall j | 0 <= j < i - 1
        ensures rest[j].Some? && rest[j].value.envelopes == [] && !rest[j].value.closed
      {
        assert rest[j] == answers[j + 1];
      }
      assert i < |answers| ==> rest[i - 1] == answers[i];
      assert i > 1 ==> rest[i - 2] == answers[i - 1];
      PollEndsThere(AskedFrom(from, answers, 1), page, rest, i - 1);
      AskedFromTail(from, answers, i);
    }
  }

  lemma {:induction false} PollEndsSomewhere(answers: seq<Option<ReadResult>>) returns (i: nat)
    ensures EndsAt(answers, i)
  {
    if answers == [] || answers[0].None? || answers[0].value.envelopes != [] || answers[0].value.closed {
      i := 0;
    } else {
      var k := PollEndsSomewhere(answers[1..]);
      i := k + 1;
      forall j | 0 <= j < i
        ensures answers[j].Some? && answers[j].value.envelopes == [] && !answers[j].value.closed
      {
        if j > 0 {
          assert answers[1..][j - 1] == answers[j];
        }
      }
    }
  }

  /** The first page that carries anything, or is closed, as read from the last offset given before it; at
      the deadline, the last empty page, or nothing. */
  method PollLiveUntil(from0: Offset, answers: seq<Option<ReadResult>>) returns (r: ReadResult, from: Offset)
    ensures (r, from) == Poll(from0, NoPage(), answers)
    ensures exists i: nat :: EndsAt(answers, i)
    ensures forall i: nat | EndsAt(answers, i) ::
              && from == AskedFrom(from0, answers, i)
              && r == if i < |answers| && answers[i].Some? then answers[i].value
                      else if i == 0 then ReadResult([], None, false, false)
                      else answers[i - 1].value
  {
    var _ := PollEndsSomewhere(answers);
    forall i: nat | EndsAt(answers, i)
      ensures Poll(from0, NoPage(), answers).1 == AskedFrom(from0, answers, i)
      ensures Poll(from0, NoPage(), answers).0 ==
              if i < |answers| && answers[i].Some? then answers[i].value
              else if i == 0 then ReadResult([], None, false, false)
              else answers[i - 1].value
    {
      PollEndsThere(from0, NoPage(), answers, i);
    }
    var last := NoPage();
    from := from0;
    var i := 0;
    assert answers[0..] == answers;
    while i < |answers|
      invariant i <= |answers|
      invariant Poll(from, last, answers[i..]) == Poll(from0, NoPage(), answers)
    {
      assert answers[i..][1..] == answers[i + 1..];
      if answers[i].None? {
        return last, from;
      }
      var page := answers[i].value;
      if page.closed || |page.envelopes| > 0 {
        return page, from;
      }
      if page.nextOffset.Some? {
        from := page.nextOffset.value;
      }
      last := page;
      i := i + 1;
    }
    r := last;
  }

  /** The answers continue from wherever the poll then reads. */
  ghost predicate Polled(s: Stream, from: Offset, answers: seq<Option<ReadResult>>)
    decreases |answers|
  {
    answers == [] || answers[0].None? || (
      var page := answers[0].value;
      && Serves(s, from, page)
      && (!Settles(page) ==> Polled(s, page.nextOffset.value, answers[1..])))
  }

  /** Empty pages only move the offset over nothing; so the page returned is either a read from an offset
      equivalent to the one asked for, or says at most how far the nothing reached. */
  lemma {:induction false} PollIsOneRead(s: Stream, start: Offset, from: Offset, last: ReadResult, answers: seq<Option<ReadResult>>)
    requires Polled(s, from, answers)
    requires UpTo(s, from) == UpTo(s, start)
    requires !Settles(last) && (last.nextOffset.Some? ==> UpTo(s, last.nextOffset.value) == UpTo(s, start))
    ensures var (r, asked) := Poll(from, last, answers);
            && UpTo(s, asked) == UpTo(s, start)
            && (Settles(r) ==> Serves(s, asked, r))
            && (!Settles(r) && r.nextOffset.Some? ==> UpTo(s, r.nextOffset.value) == UpTo(s, start))
    decreases |answers|
  {
    if answers != [] && answers[0].Some? {
      var page := answers[0].value;
      PageExtends(s, from, page);
      if !Settles(page) {
        assert UpTo(s, page.nextOffset.value) == UpTo(s, from) + [] == UpTo(s, from);
        PollIsOneRead(s, start, page.nextOffset.value, page, answers[1..]);
      }
    }
  }

  // ---- The machine --------------------------------------------------------------------------------

  datatype Phase = Idle | Resyncing(req: Offset) | Reading(req: Offset, from: Offset)

  datatype Response = Response(req: Offset, next: Offset, msgs: seq<Msg>)

  /** `cut` is the highest position handed out by storage; `served` are the offsets clients may hold;
      `intact` says that the key set was not rebuilt from reads cut short. Storage marks pages of a closed
      stream as closed: all of them, if `early`, or else those that reach its end. */
  datatype World = World(
    stream: Stream, cut: nat, closed: bool, early: bool,
    keys: set<string>, offset: Offset, intact: bool,
    phase: Phase, served: set<Offset>, log: seq<Response>)

  datatype Event =
    | Append(entry: Entry)
    | Advance(cut: nat)
    | Close
    | Begin(req: Offset)
    | Resynced(pages: seq<ReadResult>)
    | EmptyPage(page: ReadResult)
    | Deliver(page: ReadResult)
    | Deadline(offset: Offset)
    | Refuse
    | Cancel

  predicate Within(o: Offset, cut: nat) {
    !OffsetAfter(o, At(cut))
  }

  /** The engine's own entries: a value on every upsert, and no stamp but the entry's position. */
  predicate Good(e: Entry) {
    Valued(e.env) && (e.env.stamp.Some? ==> e.env.stamp.value == At(e.pos))
  }

  /** Whether storage marks a page that ends at `next` as closed. */
  ghost predicate MarkedClosed(w: World, next: Offset) {
    w.closed && (w.early || CountTo(w.stream, next) == |w.stream|)
  }

  ghost predicate Next(w: World, ev: Event, v: World) {
    match ev
    case Append(e) => !w.closed && e.pos > w.cut && Good(e) && v == w.(stream := w.stream + [e], cut := e.pos)
    case Advance(cut) => cut >= w.cut && v == w.(cut := cut)
    case Close => v == w.(closed := true)
    case Begin(req) =>
      w.phase.Idle? && req in w.served
      && v == w.(phase := if w.offset == req then Reading(req, req) else Resyncing(req))
    case Resynced(pages) =>
      && w.phase.Resyncing?
      && var req := w.phase.req; var fold := Drive(KeyFold(req), pages);
         // The offset asked for was handed out before, so reads that end by themselves have reached it; only
         // early closed marks can cut them short.
         var whole := AnswersFor(w.stream, KeyFold(req), pages, req);
         && fold.done && (whole || (w.closed && w.early))
         && v == w.(keys := fold.rows.Keys, offset := req, intact := whole, phase := Reading(req, req))
    case EmptyPage(page) =>
      && w.phase.Reading? && Serves(w.stream, w.phase.from, page) && !Settles(page)
      && Within(page.nextOffset.value, w.cut)
      && v == w.(phase := Reading(w.phase.req, page.nextOffset.value))
    case Deliver(page) =>
      // A page marked closed is refused (see `Refuse`).
      && w.phase.Reading? && Serves(w.stream, w.phase.from, page)
      && (page.closed <==> MarkedClosed(w, page.nextOffset.value)) && !page.closed
      && Within(page.nextOffset.value, w.cut)
      && var next := page.nextOffset.value; var (keys, msgs) := Classify(w.keys, page.envelopes);
         v == w.(keys := keys, offset := next, phase := Idle, served := w.served + {next},
                 log := w.log + [Response(w.phase.req, next, msgs)])
    case Deadline(offset) =>
      && w.phase.Reading? && offset in {w.phase.req, w.phase.from}
      && v == w.(offset := offset, phase := Idle, served := w.served + {offset},
                 log := w.log + [Response(w.phase.req, offset, [])])
    case Refuse => w.phase.Reading? && w.closed && v == w.(phase := Idle)
    case Cancel => !w.phase.Idle? && v == w.(phase := Idle)
  }

  /** A handle as the snapshot creates it. */
  ghost predicate Fresh(w: World) {
    && Ordered(w.stream) && (forall e | e in w.stream :: Good(e) && e.pos <= w.cut)
    && Within(w.offset, w.cut) && w.served == {w.offset}
    && w.keys == RowsAsOf(w.stream, w.offset).Keys
    && w.intact && w.phase.Idle? && w.log == []
  }

  ghost predicate Faithful(s: Stream, r: Response) {
    Client(RowsAsOf(s, r.req), r.msgs) == Some(RowsAsOf(s, r.next))
  }

  ghost predicate Inv(w: World) {
    && Ordered(w.stream) && (forall e | e in w.stream :: Good(e) && e.pos <= w.cut)
    && (forall o | o in w.served :: Within(o, w.cut))
    && w.offset in w.served
    && (w.intact ==> w.keys == RowsAsOf(w.stream, w.offset).Keys)
    && (!w.intact ==> w.closed && w.early)
    && (w.phase.Resyncing? ==> w.phase.req in w.served)
    && (w.phase.Reading? ==>
          && w.phase.req in w.served && w.offset == w.phase.req && Within(w.phase.from, w.cut)
          && UpTo(w.stream, w.phase.from) == UpTo(w.stream, w.phase.req))
    && (forall r | r in w.log :: r.req in w.served && r.next in w.served && Faithful(w.stream, r))
  }

  lemma AppendedInOrder(s: Stream, e: Entry, cut: nat)
    requires Ordered(s) && (forall x | x in s :: Good(x) && x.pos <= cut) && e.pos > cut && Good(e)
    ensures Ordered(s + [e]) && forall x | x in s + [e] :: Good(x) && x.pos <= e.pos
  {
    forall i, j | 0 <= i < j < |s + [e]|
      ensures (s + [e])[i].pos < (s + [e])[j].pos
    {
      assert s[i] in s;
    }
    assert forall x | x in s + [e] :: x in s || x == e;
  }

  /** What an offset handed out earlier stands for does not change. */
  lemma HandedOutIsStable(s: Stream, e: Entry, cut: nat, o: Offset)
    requires Within(o, cut) && e.pos > cut
    ensures UpTo(s + [e], o) == UpTo(s, o) && RowsAsOf(s + [e], o) == RowsAsOf(s, o)
  {
    CountToStable(s, e, o);
  }

  lemma AppendKeepsInv(w: World, e: Entry, v: World)
    requires Inv(w) && Next(w, Append(e), v)
    ensures Inv(v)
  {
    AppendedInOrder(w.stream, e, w.cut);
    HandedOutIsStable(w.stream, e, w.cut, w.offset);
    if w.phase.Reading? {
      HandedOutIsStable(w.stream, e, w.cut, w.phase.from);
      HandedOutIsStable(w.stream, e, w.cut, w.phase.req);
    }
    forall r | r in v.log ensures Faithful(v.stream, r) {
      assert Faithful(w.stream, r);
      HandedOutIsStable(w.stream, e, w.cut, r.req);
      HandedOutIsStable(w.stream, e, w.cut, r.next);
    }
  }

  lemma StampsAreTrue(s: Stream)
    requires forall e | e in s :: Good(e)
    ensures Truthful(s)
  {
    forall i | 0 <= i < |s| && s[i].env.stamp.Some?
      ensures s[i].env.stamp.value == At(s[i].pos)
    {
      assert s[i] in s;
    }
  }

  /** The re-fold restores the key set if it can see where the offset asked for is. */
  lemma ResyncKeepsInv(w: World, pages: seq<ReadResult>, v: World)
    requires Inv(w) && Next(w, Resynced(pages), v) && StopsAt(w.stream, w.phase.req)
    ensures Inv(v)
  {
    if v.intact {
      StampsAreTrue(w.stream);
      KeyFoldIsAsOf(w.stream, pages, w.phase.req);
    }
  }

  lemma EmptyPageKeepsInv(w: World, page: ReadResult, v: World)
    requires Inv(w) && Next(w, EmptyPage(page), v)
    ensures Inv(v)
  {
    PageExtends(w.stream, w.phase.from, page);
    assert UpTo(w.stream, page.nextOffset.value) == UpTo(w.stream, w.phase.from) + [];
  }

  lemma PageIsValued(s: Stream, from: Offset, page: ReadResult)
    requires (forall e | e in s :: Good(e)) && Serves(s, from, page)
    ensures forall e | e in page.envelopes :: Valued(e)
  {
    forall e | e in page.envelopes
      ensures Valued(e)
    {
      var i :| 0 <= i < |page.envelopes| && page.envelopes[i] == e;
      assert s[CountTo(s, from) + i] in s;
    }
  }

  lemma PageIsFaithful(s: Stream, req: Offset, from: Offset, page: ReadResult)
    requires (forall e | e in s :: Good(e)) && Serves(s, from, page) && UpTo(s, from) == UpTo(s, req)
    ensures var (keys, msgs) := Classify(RowsAsOf(s, req).Keys, page.envelopes);
            Faithful(s, Response(req, page.nextOffset.value, msgs)) && keys == RowsAsOf(s, page.nextOffset.value).Keys
  {
    PageIsValued(s, from, page);
    PageExtends(s, from, page);
    ClassifyForClient(RowsAsOf(s, req), page.envelopes);
  }

  lemma DeliverKeepsInv(w: World, page: ReadResult, v: World)
    requires Inv(w) && Next(w, Deliver(page), v)
    ensures Inv(v)
  {
    PageIsFaithful(w.stream, w.phase.req, w.phase.from, page);
  }

  lemma DeadlineKeepsInv(w: World, offset: Offset, v: World)
    requires Inv(w) && Next(w, Deadline(offset), v)
    ensures Inv(v)
  {
    assert Faithful(w.stream, Response(w.phase.req, offset, []));
  }

  /** The one thing a step needs that the code does not see to: after the offset a key set is rebuilt for,
      the stream ends or goes on with a stamped entry. */
  ghost predicate Guard(w: World, ev: Event) {
    ev.Resynced? && w.phase.Resyncing? ==> StopsAt(w.stream, w.phase.req)
  }

  lemma StepKeepsInv(w: World, ev: Event, v: World)
    requires Inv(w) && Next(w, ev, v) && Guard(w, ev)
    ensures Inv(v)
  {
    match ev
    case Append(e) => AppendKeepsInv(w, e, v);
    case Resynced(pages) => ResyncKeepsInv(w, pages, v);
    case EmptyPage(page) => EmptyPageKeepsInv(w, page, v);
    case Deliver(page) => DeliverKeepsInv(w, page, v);
    case Deadline(offset) => DeadlineKeepsInv(w, offset, v);
    case _ =>
  }

  ghost predicate RunStep(run: seq<World>, events: seq<Event>, i: nat) {
    i < |events| && i + 1 < |run| && Next(run[i], events[i], run[i + 1])
  }

  /** Any run of the machine. */
  ghost predicate FreeRun(run: seq<World>, events: seq<Event>) {
    && |run| == |events| + 1 && Fresh(run[0])
    && forall i | 0 <= i < |events| :: RunStep(run, events, i)
  }

  /** A run in which no key set is rebuilt against the guard. */
  ghost predicate Run(run: seq<World>, events: seq<Event>) {
    FreeRun(run, events) && forall i | 0 <= i < |events| :: Guard(run[i], events[i])
  }

  lemma RunPrefix(run: seq<World>, events: seq<Event>)
    requires Run(run, events) && events != []
    ensures Run(run[..|events|], events[..|events| - 1])
  {
    var r, e := run[..|events|], events[..|events| - 1];
    forall i | 0 <= i < |e| ensures RunStep(r, e, i) && Guard(r[i], e[i]) {
      assert RunStep(run, events, i) && Guard(run[i], events[i]);
    }
  }

  lemma {:induction false} RunKeepsInv(run: seq<World>, events: seq<Event>)
    requires Run(run, events)
    ensures Inv(run[|events|])
    decreases |events|
  {
    if events != [] {
      var n := |events| - 1;
      RunPrefix(run, events);
      RunKeepsInv(run[..n + 1], events[..n]);
      assert RunStep(run, events, n) && Guard(run[n], events[n]);
      StepKeepsInv(run[n], events[n], run[n + 1]);
    }
  }

  /** After every request step of every such run - retries at older offsets, cancellations and expired
      deadlines included - the key set is the key set of the stream as of the stored offset, until the
      stream is retired; and every response ever given is right for a client at the offset it asked for. */
  lemma KeySetFollowsOffset(run: seq<World>, events: seq<Event>)
    requires Run(run, events)
    ensures var w := run[|events|];
            && (!w.closed ==> w.keys == RowsAsOf(w.stream, w.offset).Keys)
            && forall r | r in w.log :: Client(RowsAsOf(w.stream, r.req), r.msgs) == Some(RowsAsOf(w.stream, r.next))
  {
    RunKeepsInv(run, events);
    assert forall r | r in run[|events|].log :: Faithful(run[|events|].stream, r);
  }

  /** Responses a client took in turn, each asked for at the offset the one before returned. */
  ghost predicate Chain(w: World, from: Offset, taken: seq<Response>)
    decreases |taken|
  {
    taken == [] || (taken[0] in w.log && taken[0].req == from && Chain(w, taken[0].next, taken[1..]))
  }

  function AllMessages(taken: seq<Response>): seq<Msg> {
    if taken == [] then [] else taken[0].msgs + AllMessages(taken[1..])
  }

  function LastOffset(from: Offset, taken: seq<Response>): Offset {
    if taken == [] then from else taken[|taken| - 1].next
  }

  /** A strict client that follows any chain of responses never refuses a message and ends with the rows
      of the stream as of the last offset it was given. */
  lemma StrictClientNeverRefuses(run: seq<World>, events: seq<Event>, from: Offset, taken: seq<Response>)
    requires Run(run, events) && Chain(run[|events|], from, taken)
    ensures var s := run[|events|].stream;
            Client(RowsAsOf(s, from), AllMessages(taken)) == Some(RowsAsOf(s, LastOffset(from, taken)))
  {
    RunKeepsInv(run, events);
    ChainIsFaithful(run[|events|], from, taken);
  }

  lemma {:induction false} ChainIsFaithful(w: World, from: Offset, taken: seq<Response>)
    requires Inv(w) && Chain(w, from, taken)
    ensures Client(RowsAsOf(w.stream, from), AllMessages(taken)) == Some(RowsAsOf(w.stream, LastOffset(from, taken)))
    decreases |taken|
  {
    if taken != [] {
      var r := taken[0];
      assert Faithful(w.stream, r);
      ChainIsFaithful(w, r.next, taken[1..]);
      ClientConcat(RowsAsOf(w.stream, from), r.msgs, AllMessages(taken[1..]));
    }
  }

  // ---- Against the guard --------------------------------------------------------------------------

  lemma {:induction false} KeysOfUnsaid(rows: Rows, envs: seq<Envelope>, k: string)
    requires forall e | e in envs :: Valued(e)
    requires (k in Replay(rows, envs)) != (k in rows)
    ensures exists e | e in envs :: e.key == k
  {
    if forall e | e in envs :: e.key != k {
      UnsaidKeyStays(rows, envs, k);
    }
  }

  /** A key whose presence the entries from `req` to `m` change is spoken of among them. */
  lemma OverrunSpeaks(s: Stream, req: Offset, m: nat, b: nat, k: string)
    requires CountTo(s, req) <= m <= b <= |s|
    requires forall e | e in Envelopes(s[CountTo(s, req)..b]) :: Valued(e)
    requires (k in KeysOf(s, m)) != (k in RowsAsOf(s, req))
    ensures exists e | e in Envelopes(s[CountTo(s, req)..b]) :: e.key == k
  {
    var t := CountTo(s, req);
    var over := Envelopes(s[t..b])[..m - t];
    EnvelopesCut(s, t, b, m - t);
    ReplayConcat(map[], UpTo(s, req), over);
    KeysOfUnsaid(RowsAsOf(s, req), over, k);
  }

  /** A retry at `req`, after a re-fold that read to the stream's end, served a page past where the fold was
      cut: the response is right exactly if the entries folded past `req` left the key set as it was. */
  lemma RetryIsRightIff(s: Stream, req: Offset, pages: seq<ReadResult>, page: ReadResult)
    requires Ordered(s) && forall e | e in s :: Good(e)
    requires AnswersFor(s, KeyFold(req), pages, req) && Drive(KeyFold(req), pages).done
    requires CountTo(s, Reached(KeyFold(req), pages)) == |s|
    requires Serves(s, req, page) && FoldCut(s, req) <= CountTo(s, page.nextOffset.value)
    ensures var keys := Drive(KeyFold(req), pages).rows.Keys;
            Faithful(s, Response(req, page.nextOffset.value, Classify(keys, page.envelopes).1))
            <==> KeysOf(s, FoldCut(s, req)) == RowsAsOf(s, req).Keys
  {
    StampsAreTrue(s);
    KeyFoldIsAsOf(s, pages, req);
    KeyFoldStopsIff(s, req);
    PageIsValued(s, req, page);
    PageExtends(s, req, page);
    RightIffKeysMatch(s, req, FoldCut(s, req), page);
  }

  lemma RightIffKeysMatch(s: Stream, req: Offset, m: nat, page: ReadResult)
    requires Serves(s, req, page) && CountTo(s, req) <= m <= CountTo(s, page.nextOffset.value)
    requires forall e | e in page.envelopes :: Valued(e)
    ensures Client(RowsAsOf(s, req), Classify(KeysOf(s, m), page.envelopes).1) == Some(Replay(RowsAsOf(s, req), page.envelopes))
            <==> KeysOf(s, m) == RowsAsOf(s, req).Keys
  {
    var keys, rows := KeysOf(s, m), RowsAsOf(s, req);
    ClassifyIsRightIff(rows, keys, page.envelopes);
    forall k | (k in keys) != (k in rows)
      ensures exists e | e in page.envelopes :: e.key == k
    {
      OverrunSpeaks(s, req, m, CountTo(s, page.nextOffset.value), k);
    }
    if keys != rows.Keys {
      var k :| (k in keys) != (k in rows);
    }
  }

  lemma Extend(run: seq<World>, events: seq<Event>, ev: Event, v: World) returns (r: seq<World>, e: seq<Event>)
    requires FreeRun(run, events) && Next(run[|events|], ev, v)
    ensures FreeRun(r, e) && r[|e|] == v
  {
    r, e := run + [v], events + [ev];
    forall i | 0 <= i < |e| ensures RunStep(r, e, i) {
      if i < |events| {
        assert RunStep(run, events, i);
      }
    }
  }

  const PUT := Envelope("k", false, Some(Val(1)), None, None, None, None)
  const DROP := Envelope("k", true, None, None, None, None, None)

  /** The handle after a snapshot of one row, with its deletion appended; nothing is stamped. */
  function AfterSnapshot(stream: Stream, cut: nat): World {
    World(stream, cut, false, false, {"k"}, At(1), true, Idle, {At(1)}, [])
  }

  lemma ReachDeletion() returns (run: seq<World>, events: seq<Event>)
    ensures FreeRun(run, events) && run[|events|] == AfterSnapshot([Entry(1, PUT), Entry(2, DROP)], 2)
  {
    var w := AfterSnapshot([Entry(1, PUT)], 1);
    TwoEntries(PUT, DROP);
    var s := [Entry(1, PUT), Entry(2, DROP)];
    CountToStable([Entry(1, PUT)], Entry(2, DROP), At(1));
    assert [Entry(1, PUT)] + [Entry(2, DROP)] == s;
    assert RowsAsOf([Entry(1, PUT)], At(1)) == RowsAsOf(s, At(1));
    assert Fresh(w);
    run, events := [w], [];
    run, events := Extend(run, events, Append(Entry(2, DROP)), AfterSnapshot(s, 2));
  }

  lemma TailPage()
    ensures Serves([Entry(1, PUT), Entry(2, DROP)], At(1), ReadResult([DROP], Some(At(2)), true, false))
  {
    TwoEntries(PUT, DROP);
    var s := [Entry(1, PUT), Entry(2, DROP)];
    assert s[1..2] == [Entry(2, DROP)];
  }

  /** The deletion is served, and the client comes back at the offset before it. */
  lemma ReachRetry() returns (run: seq<World>, events: seq<Event>)
    ensures FreeRun(run, events)
    ensures var w := run[|events|];
            && w.stream == [Entry(1, PUT), Entry(2, DROP)] && w.cut == 2 && !w.closed
            && w.phase == Resyncing(At(1)) && w.offset == At(2) && At(1) in w.served
  {
    run, events := ReachDeletion();
    TwoEntries(PUT, DROP);
    TailPage();
    var page := ReadResult([DROP], Some(At(2)), true, false);
    var w := run[|events|].(phase := Reading(At(1), At(1)));
    run, events := Extend(run, events, Begin(At(1)), w);
    var (keys, msgs) := Classify(w.keys, page.envelopes);
    w := w.(keys := keys, offset := At(2), phase := Idle, served := w.served + {At(2)},
            log := w.log + [Response(At(1), At(2), msgs)]);
    run, events := Extend(run, events, Deliver(page), w);
    run, events := Extend(run, events, Begin(At(1)), w.(phase := Resyncing(At(1))));
  }

  /** Without stamps the retry finds an empty key set and does not send the deletion: a client that held the
      row at the offset it asked for goes on holding it. */
  lemma UnstampedRetryKeepsDeletedRow() returns (run: seq<World>, events: seq<Event>, r: Response)
    ensures FreeRun(run, events) && r in run[|events|].log
    ensures var s := run[|events|].stream;
            Client(RowsAsOf(s, r.req), r.msgs) == Some(map["k" := Val(1)]) && RowsAsOf(s, r.next) == map[]
  {
    run, events := ReachRetry();
    var w := run[|events|];
    TwoEntries(PUT, DROP);
    TailPage();
    UnstampedFoldOverruns(PUT, DROP);
    var whole, page := ReadResult([PUT, DROP], Some(At(2)), true, false), ReadResult([DROP], Some(At(2)), true, false);
    var fold := Drive(KeyFold(At(1)), [whole]);
    w := w.(keys := fold.rows.Keys, offset := At(1), intact := true, phase := Reading(At(1), At(1)));
    run, events := Extend(run, events, Resynced([whole]), w);
    assert [DROP][1..] == [];
    var none: set<string> := {};
    assert none - {"k"} == none;
    var first := ClassifyOne(none, DROP);
    assert first == (none, []);
    var rest := Classify(first.0, [DROP][1..]);
    assert first.1 + rest.1 == rest.1;
    r := Response(At(1), At(2), Classify(w.keys, page.envelopes).1);
    var v := w.(keys := Classify(w.keys, page.envelopes).0, offset := At(2), phase := Idle, served := w.served + {At(2)},
                log := w.log + [r]);
    run, events := Extend(run, events, Deliver(page), v);
  }
}
