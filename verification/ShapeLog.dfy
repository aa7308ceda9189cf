/**
 The change-log preview of a shape: its stream walked from the beginning, each envelope reported as an
 insert, an update or a delete, and only the last few kept. A third reading of the same stream, which
 has to tell the story the adapter's messages tell.
 */
module ShapeLog {
  import opened Basics
  import opened Streams
  import opened Fold
  import opened Adapter

  datatype Op = Inserted | Updated | Deleted

  datatype LogEntry = LogEntry(op: Op, key: string, value: Option<Val>, prior: Option<Val>, lsn: Option<string>)

  /** The keys that are live, each with the value its last envelope carried. */
  type Live = map<string, Option<Val>>

  function Describe(live: Live, e: Envelope): LogEntry {
    if e.isDelete then
      LogEntry(Deleted, e.key, e.value,
               if e.prior.Some? then e.prior else if e.key in live then live[e.key] else None, e.lsn)
    else LogEntry(if e.key in live then Updated else Inserted, e.key, e.value, e.prior, e.lsn)
  }

  function Track(live: Live, e: Envelope): Live {
    if e.isDelete then live - {e.key} else live[e.key := e.value]
  }

  function TrackAll(live: Live, envs: seq<Envelope>): Live {
    if envs == [] then live else Track(TrackAll(live, envs[..|envs| - 1]), envs[|envs| - 1])
  }

  /** One entry for each envelope. */
  function Entries(live: Live, envs: seq<Envelope>): (entries: seq<LogEntry>)
    ensures |entries| == |envs|
  {
    if envs == [] then []
    else
      var before := envs[..|envs| - 1];
      Entries(live, before) + [Describe(TrackAll(live, before), envs[|envs| - 1])]
  }

  function LastN<V>(s: seq<V>, n: nat): seq<V> {
    if |s| <= n then s else s[|s| - n..]
  }

  /** The envelopes of the pages that are read. */
  function Walked(offset: Offset, pages: seq<ReadResult>): seq<Envelope>
    decreases |pages|
  {
    if pages == [] then []
    else
      var r := pages[0];
      r.envelopes +
      if PageShouldContinue(offset, r.nextOffset, r.upToDate, r.closed)
      then Walked(r.nextOffset.value, pages[1..]) else []
  }

  method GetShapeLog(pages: seq<ReadResult>, asked: Option<nat>) returns (entries: seq<LogEntry>, total: nat)
    ensures var envs := Walked(Beginning, pages);
            total == |envs|
            && entries == LastN(Entries(map[], envs), LogLimit(asked))
  {
    var limit := LogLimit(asked);
    var live: Live := map[];
    var offset := Beginning;
    entries, total := [], 0;
    ghost var goal := Walked(offset, pages);
    ghost var seen: seq<Envelope> := [];
    var i := 0;
    assert pages[0..] == pages && seen + goal == goal;
    while i < |pages|
      invariant i <= |pages|
      invariant seen + Walked(offset, pages[i..]) == goal
      invariant total == |seen| && live == TrackAll(map[], seen)
      invariant entries == LastN(Entries(map[], seen), limit)
    {
      var r := pages[i];
      WalkedStep(offset, pages, i, seen);
      var more, count, after := LogPage(entries, limit, live, r.envelopes, seen);
      entries, total, live := more, total + count, after;
      var previous := offset;
      if r.nextOffset.Some? {
        offset := r.nextOffset.value;
      }
      seen := seen + r.envelopes;
      if !PageShouldContinue(previous, r.nextOffset, r.upToDate, r.closed) {
        return;
      }
      i := i + 1;
    }
    assert seen + [] == seen;
  }

  /** The preview reads exactly the answers up to the first one that ends the reading. */
  lemma {:induction false} WalkedReadsOn(offset: Offset, pages: seq<ReadResult>) returns (k: nat)
    ensures ReadUpTo(offset, pages, k) && Walked(offset, pages) == EnvelopesOf(pages[..k])
    decreases |pages|
  {
    if pages == [] {
      k := 0;
    } else if EndsReading(offset, pages[0]) {
      k := 1;
      ReadOnePage(offset, pages);
      assert pages[0].envelopes + [] == pages[0].envelopes;
    } else {
      var m := WalkedReadsOn(pages[0].nextOffset.value, pages[1..]);
      k := m + 1;
      ReadOneMore(offset, pages, m);
    }
  }

  lemma WalkedStep(offset: Offset, pages: seq<ReadResult>, i: nat, seen: seq<Envelope>)
    requires i < |pages|
    ensures var r := pages[i];
            seen + Walked(offset, pages[i..]) ==
            if PageShouldContinue(offset, r.nextOffset, r.upToDate, r.closed)
            then seen + r.envelopes + Walked(r.nextOffset.value, pages[i + 1..])
            else seen + r.envelopes
  {
    var r := pages[i];
    assert pages[i..][0] == r && pages[i..][1..] == pages[i + 1..];
    if PageShouldContinue(offset, r.nextOffset, r.upToDate, r.closed) {
      var more := Walked(r.nextOffset.value, pages[i + 1..]);
      assert seen + (r.envelopes + more) == seen + r.envelopes + more;
    } else {
      assert r.envelopes + [] == r.envelopes;
    }
  }

  /** As many entries as are asked for, but no more than 500; 50 if nothing is said. */
  function LogLimit(asked: Option<nat>): (limit: nat)
    ensures asked.None? ==> limit == 50
    ensures asked.Some? && asked.value <= 500 ==> limit == asked.value
    ensures asked.Some? && asked.value > 500 ==> limit == 500
  {
    var n := if asked.Some? then asked.value else 50;
    if n < 500 then n else 500
  }

  /** One page: push each entry at the back, and drop the oldest when there are too many. */
  method LogPage(kept: seq<LogEntry>, limit: nat, live: Live, envs: seq<Envelope>, ghost seen: seq<Envelope>)
    returns (entries: seq<LogEntry>, count: nat, after: Live)
    requires live == TrackAll(map[], seen) && kept == LastN(Entries(map[], seen), limit)
    ensures count == |envs| && after == TrackAll(map[], seen + envs)
    ensures entries == LastN(Entries(map[], seen + envs), limit)
  {
    entries, count, after := kept, 0, live;
    var j := 0;
    assert seen + envs[..0] == seen;
    while j < |envs|
      invariant j <= |envs| && count == j
      invariant after == TrackAll(map[], seen + envs[..j])
      invariant entries == LastN(Entries(map[], seen + envs[..j]), limit)
    {
      var e := envs[j];
      EntriesGrow(seen, envs, j);
      count := count + 1;
      var entry: LogEntry;
      if e.isDelete {
        var last := if e.key in after then after[e.key] else None;
        after := after - {e.key};
        entry := LogEntry(Deleted, e.key, e.value, if e.prior.Some? then e.prior else last, e.lsn);
      } else {
        var existed := e.key in after;
        after := after[e.key := e.value];
        entry := LogEntry(if existed then Updated else Inserted, e.key, e.value, e.prior, e.lsn);
      }
      LastNPush(Entries(map[], seen + envs[..j]), entry, limit);
      entries := entries + [entry];
      if |entries| > limit {
        entries := entries[1..];
      }
      j := j + 1;
    }
    assert envs[..j] == envs;
  }

  lemma EntriesGrow(seen: seq<Envelope>, envs: seq<Envelope>, j: nat)
    requires j < |envs|
    ensures var before := seen + envs[..j];
            && Entries(map[], seen + envs[..j + 1]) ==
               Entries(map[], before) + [Describe(TrackAll(map[], before), envs[j])]
            && TrackAll(map[], seen + envs[..j + 1]) == Track(TrackAll(map[], before), envs[j])
  {
    var all := seen + envs[..j + 1];
    assert all[..|all| - 1] == seen + envs[..j] && all[|all| - 1] == envs[j];
  }

  lemma LastNPush<V>(s: seq<V>, x: V, n: nat)
    ensures LastN(s + [x], n) == if |LastN(s, n) + [x]| > n then (LastN(s, n) + [x])[1..] else LastN(s, n) + [x]
  {
  }

  // ---- What an entry says -------------------------------------------------------------------------

  /** The last envelope on the key. */
  function LastOn(envs: seq<Envelope>, k: string): (last: Option<Envelope>)
    ensures last.Some? ==> last.value in envs && last.value.key == k
    ensures last.None? ==> forall e | e in envs :: e.key != k
  {
    if envs == [] then None
    else if envs[|envs| - 1].key == k then Some(envs[|envs| - 1])
    else LastOn(envs[..|envs| - 1], k)
  }

  /** A key is live exactly if the last envelope on it is there and no delete; its value is that
      envelope's. */
  lemma {:induction false} LiveByLastEnvelope(envs: seq<Envelope>, k: string)
    ensures var last := LastOn(envs, k); var live := TrackAll(map[], envs);
            && (k in live <==> last.Some? && !last.value.isDelete)
            && (k in live ==> live[k] == last.value.value)
  {
    if envs != [] {
      LiveByLastEnvelope(envs[..|envs| - 1], k);
    }
  }

  lemma {:induction false} EntryOfPrefix(envs: seq<Envelope>, i: nat)
    requires i < |envs|
    ensures Entries(map[], envs)[i] == Describe(TrackAll(map[], envs[..i]), envs[i])
  {
    var n := |envs| - 1;
    if i < n {
      EntryOfPrefix(envs[..n], i);
      assert envs[..n][..i] == envs[..i];
    }
  }

  /** Each entry by the last envelope before it on its key: an update if that was no delete, an insert
      otherwise; a delete gives the row it removed, from the envelope itself where that carries it. */
  lemma EntryByLastEnvelope(envs: seq<Envelope>, i: nat)
    requires i < |envs|
    ensures var e, entry, last := envs[i], Entries(map[], envs)[i], LastOn(envs[..i], envs[i].key);
            var wasLive := last.Some? && !last.value.isDelete;
            && entry.key == e.key && entry.value == e.value && entry.lsn == e.lsn
            && entry.op == (if e.isDelete then Deleted else if wasLive then Updated else Inserted)
            && entry.prior == if !e.isDelete || e.prior.Some? then e.prior
                              else if wasLive then last.value.value
                              else None
  {
    EntryOfPrefix(envs, i);
    LiveByLastEnvelope(envs[..i], envs[i].key);
  }

  // ---- The adapter's messages ---------------------------------------------------------------------

  /** What an entry and a message have in common: the operation, the key and the row's new value. A
      delete's own value and the transaction are only in the message, the old row only in the entry. */
  datatype Told = Told(op: Op, key: string, value: Option<Val>)

  function ToldBy(msgs: seq<Msg>): seq<Told> {
    if msgs == [] then []
    else [match msgs[0]
          case Insert(k, v, _) => Told(Inserted, k, v)
          case Update(k, v, _) => Told(Updated, k, v)
          case Delete(k, v, _) => Told(Deleted, k, v)] + ToldBy(msgs[1..])
  }

  /** The entries, without the deletes of absent keys. */
  function ToldIn(keys: set<string>, entries: seq<LogEntry>): seq<Told>
    decreases |entries|
  {
    if entries == [] then []
    else
      var entry := entries[0];
      match entry.op
      case Inserted => [Told(Inserted, entry.key, entry.value)] + ToldIn(keys + {entry.key}, entries[1..])
      case Updated => [Told(Updated, entry.key, entry.value)] + ToldIn(keys, entries[1..])
      case Deleted => (if entry.key in keys then [Told(Deleted, entry.key, entry.value)] else [])
                      + ToldIn(keys - {entry.key}, entries[1..])
  }

  lemma MiddleOf(envs: seq<Envelope>)
    requires |envs| > 1
    ensures envs[..|envs| - 1][1..] == envs[1..][..|envs| - 2]
    ensures envs[1..][|envs| - 2] == envs[|envs| - 1] && envs[..|envs| - 1][0] == envs[0]
  {
  }

  lemma {:induction false} EntriesFromFront(live: Live, envs: seq<Envelope>)
    requires envs != []
    ensures Entries(live, envs) == [Describe(live, envs[0])] + Entries(Track(live, envs[0]), envs[1..])
    ensures TrackAll(live, envs) == TrackAll(Track(live, envs[0]), envs[1..])
  {
    var n := |envs| - 1;
    if n == 0 {
      assert envs[..0] == [] && envs[1..] == [];
    } else {
      EntriesFromFront(live, envs[..n]);
      MiddleOf(envs);
    }
  }

  /** The preview and the adapter agree: from the same live keys they end at the same live keys, and the
      adapter's messages are the preview's entries without the deletes of absent keys. */
  lemma {:induction false} LogTellsTheMessages(live: Live, envs: seq<Envelope>)
    ensures TrackAll(live, envs).Keys == Classify(live.Keys, envs).0
    ensures ToldIn(live.Keys, Entries(live, envs)) == ToldBy(Classify(live.Keys, envs).1)
    decreases |envs|
  {
    if envs != [] {
      EntriesFromFront(live, envs);
      var next := Track(live, envs[0]);
      LogTellsTheMessages(next, envs[1..]);
      OneEntryOneMessage(live, envs[0], Entries(next, envs[1..]));
      ToldConcat(ClassifyOne(live.Keys, envs[0]).1, Classify(next.Keys, envs[1..]).1);
    }
  }

  lemma {:induction false} ToldConcat(a: seq<Msg>, b: seq<Msg>)
    ensures ToldBy(a + b) == ToldBy(a) + ToldBy(b)
  {
    if a == [] {
      assert a + b == b;
    } else {
      assert (a + b)[0] == a[0] && (a + b)[1..] == a[1..] + b;
      ToldConcat(a[1..], b);
    }
  }

  lemma OneEntryOneMessage(live: Live, e: Envelope, rest: seq<LogEntry>)
    ensures Track(live, e).Keys == ClassifyOne(live.Keys, e).0
    ensures ToldIn(live.Keys, [Describe(live, e)] + rest) ==
            ToldBy(ClassifyOne(live.Keys, e).1) + ToldIn(Track(live, e).Keys, rest)
  {
    assert ([Describe(live, e)] + rest)[1..] == rest;
    assert Track(live, e).Keys == ClassifyOne(live.Keys, e).0;
    if e.isDelete {
      assert live.Keys - {e.key} == Track(live, e).Keys;
    } else if e.key in live {
      assert Track(live, e).Keys == live.Keys;
    }
  }
}
