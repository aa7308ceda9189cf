/**
 Shape streams as storage serves them: envelopes at increasing positions, read in pages. A page
 boundary is a position, and nothing is ever added at or below a position that was handed out, so a
 page can be described against the stream as it stands at any later time.
 */
module Streams {
  import opened Basics

  /** `-1` is the beginning; every other offset is a position, in stream order. */
  datatype Offset = Beginning | At(pos: nat)

  predicate OffsetAfter(a: Offset, b: Offset) {
    if a.Beginning? then false
    else if b.Beginning? then true
    else a.pos > b.pos
  }

  /** A row value; `NullVal` is what a membership-only fold keeps in its place. */
  datatype Val = NullVal | Val(id: int)

  /** `prior` is the row before the change, where replication carried one; `stamp` is the position the
      server may put on the item; `txid` and `lsn` name the source transaction and its commit. */
  datatype Envelope = Envelope(key: string, isDelete: bool, value: Option<Val>, prior: Option<Val>, stamp: Option<Offset>,
                               txid: Option<string>, lsn: Option<string>)

  datatype Entry = Entry(pos: nat, env: Envelope)

  type Stream = seq<Entry>

  datatype ReadResult = ReadResult(envelopes: seq<Envelope>, nextOffset: Option<Offset>, upToDate: bool, closed: bool)

  type Rows = map<string, Val>

  // ---- What a stream says -------------------------------------------------------------------------

  ghost predicate Ordered(s: Stream) {
    forall i, j | 0 <= i < j < |s| :: s[i].pos < s[j].pos
  }

  /** How many entries lie at or below the offset. */
  function CountTo(s: Stream, o: Offset): (n: nat)
    ensures n <= |s|
  {
    if s == [] then 0
    else if OffsetAfter(At(s[|s| - 1].pos), o) then CountTo(s[..|s| - 1], o)
    else |s|
  }

  function Envelopes(s: Stream): (envs: seq<Envelope>)
    ensures |envs| == |s| && forall i | 0 <= i < |s| :: envs[i] == s[i].env
  {
    seq(|s|, i requires 0 <= i < |s| => s[i].env)
  }

  /** The envelopes at or below the offset. */
  function UpTo(s: Stream, o: Offset): seq<Envelope> {
    Envelopes(s[..CountTo(s, o)])
  }

  function Step(rows: Rows, e: Envelope): Rows {
    if e.isDelete then rows - {e.key}
    else if e.value.Some? then rows[e.key := e.value.value]
    else rows
  }

  /** The key-to-row map after the envelopes, oldest first. */
  function Replay(rows: Rows, envs: seq<Envelope>): Rows
    decreases |envs|
  {
    if envs == [] then rows else Replay(Step(rows, envs[0]), envs[1..])
  }

  function RowsAsOf(s: Stream, o: Offset): Rows {
    Replay(map[], UpTo(s, o))
  }

  /** A read from `from` returns everything between `from` and its next offset. */
  ghost predicate Serves(s: Stream, from: Offset, r: ReadResult) {
    && r.nextOffset.Some? && !OffsetAfter(from, r.nextOffset.value)
    && CountTo(s, from) <= CountTo(s, r.nextOffset.value)
    && r.envelopes == Envelopes(s[CountTo(s, from)..CountTo(s, r.nextOffset.value)])
  }

  lemma {:induction false} CountToBounds(s: Stream, o: Offset)
    requires Ordered(s)
    ensures forall i | 0 <= i < CountTo(s, o) :: !OffsetAfter(At(s[i].pos), o)
    ensures forall i | CountTo(s, o) <= i < |s| :: OffsetAfter(At(s[i].pos), o)
  {
    if s != [] && OffsetAfter(At(s[|s| - 1].pos), o) {
      CountToBounds(s[..|s| - 1], o);
    }
  }

  lemma {:induction false} ReplayConcat(rows: Rows, a: seq<Envelope>, b: seq<Envelope>)
    ensures Replay(rows, a + b) == Replay(Replay(rows, a), b)
    decreases |a|
  {
    if a == [] {
      assert a + b == b;
    } else {
      assert (a + b)[0] == a[0] && (a + b)[1..] == a[1..] + b;
      ReplayConcat(Step(rows, a[0]), a[1..], b);
    }
  }

  /** A page takes the replay from one offset to the next, wherever the boundaries fall. */
  lemma PageExtends(s: Stream, from: Offset, r: ReadResult)
    requires Serves(s, from, r)
    ensures UpTo(s, r.nextOffset.value) == UpTo(s, from) + r.envelopes
    ensures RowsAsOf(s, r.nextOffset.value) == Replay(RowsAsOf(s, from), r.envelopes)
  {
    ReplayConcat(map[], UpTo(s, from), r.envelopes);
  }

  lemma {:induction false} BeginningIsEmpty(s: Stream)
    ensures CountTo(s, Beginning) == 0
  {
    if s != [] {
      BeginningIsEmpty(s[..|s| - 1]);
    }
  }

  /** Entries added past an offset do not change what lies at or below it. */
  lemma CountToStable(s: Stream, e: Entry, o: Offset)
    requires OffsetAfter(At(e.pos), o)
    ensures CountTo(s + [e], o) == CountTo(s, o)
    ensures UpTo(s + [e], o) == UpTo(s, o)
  {
    assert (s + [e])[..|s + [e]| - 1] == s;
    assert (s + [e])[..CountTo(s, o)] == s[..CountTo(s, o)];
  }

  /** A page once served stays a true account of the stream, whatever is added past its next offset. */
  lemma ServesStable(s: Stream, e: Entry, from: Offset, r: ReadResult)
    requires Serves(s, from, r) && OffsetAfter(At(e.pos), r.nextOffset.value)
    ensures Serves(s + [e], from, r)
  {
    CountToStable(s, e, from);
    CountToStable(s, e, r.nextOffset.value);
    var a, b := CountTo(s, from), CountTo(s, r.nextOffset.value);
    assert (s + [e])[a..b] == s[a..b];
  }

  // ---- Re-appending a batch -----------------------------------------------------------------------

  /** What the replay leaves under a key: the last envelope that says anything about the key decides. */
  lemma {:induction false} LastWins(rows: Rows, envs: seq<Envelope>, other: Rows, k: string)
    requires k in rows ==> k in other && other[k] == rows[k]
    requires k in other ==> k in rows
    ensures k in Replay(rows, envs) <==> k in Replay(other, envs)
    ensures k in Replay(rows, envs) ==> Replay(rows, envs)[k] == Replay(other, envs)[k]
    decreases |envs|
  {
    if envs != [] {
      LastWins(Step(rows, envs[0]), envs[1..], Step(other, envs[0]), k);
    }
  }

  predicate Says(e: Envelope, k: string) {
    e.key == k && (e.isDelete || e.value.Some?)
  }

  lemma {:induction false} UnsaidKeyStays(rows: Rows, envs: seq<Envelope>, k: string)
    requires forall e | e in envs :: !Says(e, k)
    ensures k in Replay(rows, envs) <==> k in rows
    ensures k in rows ==> Replay(rows, envs)[k] == rows[k]
    decreases |envs|
  {
    if envs != [] {
      assert envs[0] in envs && forall e | e in envs[1..] :: e in envs;
      UnsaidKeyStays(Step(rows, envs[0]), envs[1..], k);
    }
  }

  lemma {:induction false} SaidKeyForgets(rows: Rows, other: Rows, envs: seq<Envelope>, k: string)
    requires exists e | e in envs :: Says(e, k)
    ensures k in Replay(rows, envs) <==> k in Replay(other, envs)
    ensures k in Replay(rows, envs) ==> Replay(rows, envs)[k] == Replay(other, envs)[k]
    decreases |envs|
  {
    var r, o := Step(rows, envs[0]), Step(other, envs[0]);
    if exists e | e in envs[1..] :: Says(e, k) {
      SaidKeyForgets(r, o, envs[1..], k);
    } else {
      assert Says(envs[0], k);
      LastWins(r, envs[1..], o, k);
    }
  }

  /** Appending a batch again, as an at-least-once retry after an ambiguous failure does, leaves the
      replayed map as it was. */
  lemma RepeatedBatchChangesNothing(rows: Rows, before: seq<Envelope>, batch: seq<Envelope>)
    ensures Replay(rows, before + batch + batch) == Replay(rows, before + batch)
  {
    ReplayConcat(rows, before, batch);
    ReplayConcat(rows, before + batch, batch);
    var start := Replay(rows, before);
    var once := Replay(start, batch);
    var twice := Replay(once, batch);
    forall k
      ensures k in twice <==> k in once
      ensures k in once ==> twice[k] == once[k]
    {
      if exists e | e in batch :: Says(e, k) {
        SaidKeyForgets(once, start, batch, k);
      } else {
        UnsaidKeyStays(once, batch, k);
      }
    }
    assert twice == once;
  }
}
