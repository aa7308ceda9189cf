/**
 The Electric adapter's per-handle protocol: absolute upsert/delete envelopes become insert, update and
 delete messages for a client that refuses any message its rows contradict. Requests are serialized per
 handle, may resume at any offset served before, and may be cancelled wherever they wait.
 */
module Adapter {
  import opened Basics
  import opened Streams
  import opened Fold

  /** A delete without a value carries the key in its place. */
  datatype Msg =
    | Insert(key: string, value: Option<Val>, txid: Option<string>)
    | Update(key: string, value: Option<Val>, txid: Option<string>)
    | Delete(key: string, value: Option<Val>, txid: Option<string>)

  // ---- Classifying envelopes against the key set --------------------------------------------------

  function ClassifyOne(keys: set<string>, e: Envelope): (set<string>, seq<Msg>) {
    if e.isDelete then
      (keys - {e.key}, if e.key in keys then [Delete(e.key, e.value, e.txid)] else [])
    else if e.key in keys then
      (keys, [Update(e.key, e.value, e.txid)])
    else
      (keys + {e.key}, [Insert(e.key, e.value, e.txid)])
  }

  function Classify(keys: set<string>, envs: seq<Envelope>): (set<string>, seq<Msg>)
    decreases |envs|
  {
    if envs == [] then (keys, [])
    else
      var (k1, m1) := ClassifyOne(keys, envs[0]);
      var (k2, m2) := Classify(k1, envs[1..]);
      (k2, m1 + m2)
  }

  method ApplyChanges(keys: set<string>, envs: seq<Envelope>) returns (keys': set<string>, messages: seq<Msg>)
    ensures keys' == Classify(keys, envs).0 && messages == Classify(keys, envs).1
  {
    keys', messages := keys, [];
    var i := 0;
    assert envs[0..] == envs;
    while i < |envs|
      invariant i <= |envs|
      invariant Classify(keys, envs).0 == Classify(keys', envs[i..]).0
      invariant Classify(keys, envs).1 == messages + Classify(keys', envs[i..]).1
    {
      var e := envs[i];
      assert envs[i..][0] == e && envs[i..][1..] == envs[i + 1..];
      if e.isDelete {
        if e.key in keys' {
          messages := messages + [Delete(e.key, e.value, e.txid)];
        }
        keys' := keys' - {e.key};
      } else if e.key in keys' {
        messages := messages + [Update(e.key, e.value, e.txid)];
      } else {
        keys' := keys' + {e.key};
        messages := messages + [Insert(e.key, e.value, e.txid)];
      }
      i := i + 1;
    }
    assert envs[i..] == [] && messages + [] == messages;
  }

  // ---- The strict client --------------------------------------------------------------------------

  /** Inserts only what is absent, updates and deletes only what is present; `None` is a refusal. */
  function ClientStep(rows: Rows, m: Msg): Option<Rows> {
    match m
    case Insert(k, v, _) => if k in rows || v.None? then None else Some(rows[k := v.value])
    case Update(k, v, _) => if k !in rows || v.None? then None else Some(rows[k := v.value])
    case Delete(k, _, _) => if k !in rows then None else Some(rows - {k})
  }

  function Client(rows: Rows, msgs: seq<Msg>): Option<Rows>
    decreases |msgs|
  {
    if msgs == [] then Some(rows)
    else match ClientStep(rows, msgs[0])
      case None => None
      case Some(next) => Client(next, msgs[1..])
  }

  predicate Valued(e: Envelope) {
    e.isDelete || e.value.Some?
  }

  lemma {:induction false} ClientConcat(rows: Rows, a: seq<Msg>, b: seq<Msg>)
    requires Client(rows, a).Some?
    ensures Client(rows, a + b) == Client(Client(rows, a).value, b)
    decreases |a|
  {
    if a == [] {
      assert a + b == b;
    } else {
      assert (a + b)[0] == a[0] && (a + b)[1..] == a[1..] + b;
      ClientConcat(ClientStep(rows, a[0]).value, a[1..], b);
    }
  }

  lemma ClassifyOneForClient(rows: Rows, e: Envelope)
    requires Valued(e)
    ensures var (keys, msgs) := ClassifyOne(rows.Keys, e);
            Client(rows, msgs) == Some(Step(rows, e)) && keys == Step(rows, e).Keys
  {
    var (keys, msgs) := ClassifyOne(rows.Keys, e);
    if msgs != [] {
      assert msgs[1..] == [];
    } else {
      assert rows - {e.key} == rows;
    }
  }

  /** A client holding the rows behind the key set accepts every message and ends where the envelopes
      lead; the key set follows. */
  lemma {:induction false} ClassifyForClient(rows: Rows, envs: seq<Envelope>)
    requires forall e | e in envs :: Valued(e)
    ensures var (keys, msgs) := Classify(rows.Keys, envs);
            Client(rows, msgs) == Some(Replay(rows, envs)) && keys == Replay(rows, envs).Keys
    decreases |envs|
  {
    if envs != [] {
      var e, rest := envs[0], envs[1..];
      assert e in envs && forall x | x in rest :: x in envs;
      ClassifyOneForClient(rows, e);
      ClassifyForClient(Step(rows, e), rest);
      ClientConcat(rows, ClassifyOne(rows.Keys, e).1, Classify(Step(rows, e).Keys, rest).1);
    }
  }

  /** An envelope keeps the key set in step with the fold, and the client content, exactly when it
      carries a value or is a delete - or, for the key set alone, when its key is already there. */
  lemma ClassifyOneAgreesIff(rows: Rows, e: Envelope)
    ensures ClassifyOne(rows.Keys, e).0 == Step(rows, e).Keys <==> Valued(e) || e.key in rows
    ensures Client(rows, ClassifyOne(rows.Keys, e).1) == Some(Step(rows, e)) <==> Valued(e)
  {
    if Valued(e) {
      ClassifyOneForClient(rows, e);
    } else {
      assert e.key in ClassifyOne(rows.Keys, e).0;
    }
  }

  // ---- What the messages say ----------------------------------------------------------------------

  /** The key is there after the envelopes: the last one on it is an upsert, or there is none and it was
      there before. */
  predicate There(keys: set<string>, envs: seq<Envelope>, k: string) {
    if envs == [] then k in keys
    else if envs[|envs| - 1].key == k then !envs[|envs| - 1].isDelete
    else There(keys, envs[..|envs| - 1], k)
  }

  /** A message passes on its envelope's key, row and transaction; its kind follows from the envelope and
      from whether the key is there. */
  predicate Tells(m: Msg, e: Envelope, there: bool) {
    && m.key == e.key && m.value == e.value && m.txid == e.txid
    && (m.Delete? <==> e.isDelete)
    && (m.Update? <==> !e.isDelete && there)
  }

  /** Every upsert is told, and a delete of a key that is there. */
  predicate Told(keys: set<string>, envs: seq<Envelope>, i: nat) {
    i < |envs| && (envs[i].isDelete ==> There(keys, envs[..i], envs[i].key))
  }

  lemma {:induction false} ClassifyConcat(keys: set<string>, a: seq<Envelope>, b: seq<Envelope>)
    ensures var (k1, m1) := Classify(keys, a);
            var (k2, m2) := Classify(k1, b);
            Classify(keys, a + b) == (k2, m1 + m2)
    decreases |a|
  {
    if a == [] {
      assert a + b == b && [] + Classify(keys, b).1 == Classify(keys, b).1;
    } else {
      assert (a + b)[0] == a[0] && (a + b)[1..] == a[1..] + b;
      var (k, m) := ClassifyOne(keys, a[0]);
      ClassifyConcat(k, a[1..], b);
      var (k1, m1) := Classify(k, a[1..]);
      assert m + m1 + Classify(k1, b).1 == m + (m1 + Classify(k1, b).1);
    }
  }

  lemma ClassifyLast(keys: set<string>, envs: seq<Envelope>)
    requires envs != []
    ensures var last := |envs| - 1;
            var (k1, m1) := Classify(keys, envs[..last]);
            Classify(keys, envs) == (ClassifyOne(k1, envs[last]).0, m1 + ClassifyOne(k1, envs[last]).1)
  {
    var last := |envs| - 1;
    assert envs == envs[..last] + [envs[last]];
    ClassifyConcat(keys, envs[..last], [envs[last]]);
    var k1 := Classify(keys, envs[..last]).0;
    assert [envs[last]][1..] == [];
    var (k, m) := ClassifyOne(k1, envs[last]);
    assert Classify(k, []) == (k, []) && m + [] == m;
  }

  lemma {:induction false} KeysThere(keys: set<string>, envs: seq<Envelope>, k: string)
    ensures k in Classify(keys, envs).0 <==> There(keys, envs, k)
    decreases |envs|
  {
    if envs != [] {
      ClassifyLast(keys, envs);
      KeysThere(keys, envs[..|envs| - 1], k);
    }
  }

  /** The messages follow the envelopes in order: one for each that has something to tell, with its key,
      its row and its transaction. */
  lemma {:induction false} MessagesFollowEnvelopes(keys: set<string>, envs: seq<Envelope>) returns (at: seq<nat>)
    ensures Ascending(at) && forall i: nat :: i in at <==> Told(keys, envs, i)
    ensures var msgs := Classify(keys, envs).1;
            |at| == |msgs| && forall j | 0 <= j < |at| ::
              at[j] < |envs| && Tells(msgs[j], envs[at[j]], There(keys, envs[..at[j]], envs[at[j]].key))
    decreases |envs|
  {
    at := [];
    if envs != [] {
      var last := |envs| - 1;
      at := MessagesFollowEnvelopes(keys, envs[..last]);
      forall j | 0 <= j < |at|
        ensures at[j] < last && envs[..last][..at[j]] == envs[..at[j]]
      {
        assert at[j] in at;
      }
      forall i: nat
        ensures i in at <==> i < last && Told(keys, envs, i)
      {
        if i < last {
          assert envs[..last][..i] == envs[..i];
        }
      }
      ClassifyLast(keys, envs);
      KeysThere(keys, envs[..last], envs[last].key);
      at := at + if Told(keys, envs, last) then [last] else [];
    }
  }

  // ---- A key set that is not the client's ---------------------------------------------------------

  /** A client that holds a key the key set lacks, while the rows it should hold lack it too, never gets
      there: the next upsert of the key is refused, and a delete of it is not sent. */
  lemma {:induction false} StaleKeyShows(held: Rows, due: Rows, keys: set<string>, envs: seq<Envelope>, k: string)
    requires forall e | e in envs :: Valued(e)
    requires k in held && k !in due && k !in keys
    ensures Client(held, Classify(keys, envs).1) != Some(Replay(due, envs))
    decreases |envs|
  {
    if envs != [] {
      var e, rest := envs[0], envs[1..];
      assert e in envs && forall x | x in rest :: x in envs;
      var (next, msgs) := ClassifyOne(keys, e);
      ClientOne(held, msgs, Classify(next, rest).1);
      if Client(held, msgs).Some? {
        StaleKeyShows(Client(held, msgs).value, Step(due, e), next, rest, k);
      }
    }
  }

  lemma ClientOne(rows: Rows, msgs: seq<Msg>, more: seq<Msg>)
    requires |msgs| <= 1
    ensures Client(rows, msgs) == if msgs == [] then Some(rows) else ClientStep(rows, msgs[0])
    ensures Client(rows, msgs + more) ==
            if Client(rows, msgs).None? then None else Client(Client(rows, msgs).value, more)
  {
    if msgs == [] {
      assert msgs + more == more;
    } else {
      assert (msgs + more)[0] == msgs[0] && (msgs + more)[1..] == more && msgs[1..] == [];
    }
  }

  /** Whatever key set the messages were made from, a client holding `rows` ends where the envelopes lead
      exactly if that key set and the client agree on every key the envelopes speak of. */
  lemma {:induction false} ClassifyIsRightIff(rows: Rows, keys: set<string>, envs: seq<Envelope>)
    requires forall e | e in envs :: Valued(e)
    ensures Client(rows, Classify(keys, envs).1) == Some(Replay(rows, envs))
            <==> forall e | e in envs :: e.key in keys <==> e.key in rows
    decreases |envs|
  {
    if envs != [] {
      var e, rest := envs[0], envs[1..];
      assert forall x :: x in envs <==> x == e || x in rest;
      assert e in envs && Valued(e);
      var (next, msgs) := ClassifyOne(keys, e);
      ClientOne(rows, msgs, Classify(next, rest).1);
      if e.key in keys <==> e.key in rows {
        if e.isDelete && e.key !in rows {
          assert rows - {e.key} == rows;
        }
        assert Client(rows, msgs) == Some(Step(rows, e));
        ClassifyIsRightIff(Step(rows, e), next, rest);
        assert forall x | x in rest :: (x.key in next <==> x.key in Step(rows, e)) <==> (x.key in keys <==> x.key in rows);
      } else if Client(rows, msgs).Some? {
        StaleKeyShows(rows, Step(rows, e), next, rest, e.key);
      }
    }
  }

  // ---- The snapshot -------------------------------------------------------------------------------

  /** One insert per emitted key. */
  function SnapshotMessages(keys: seq<string>, rows: Rows): (msgs: seq<Msg>)
    requires forall k | k in keys :: k in rows
    ensures |msgs| == |keys| && forall i | 0 <= i < |keys| :: msgs[i] == Insert(keys[i], Some(rows[keys[i]]), None)
  {
    seq(|keys|, i requires 0 <= i < |keys| => Insert(keys[i], Some(rows[keys[i]]), None))
  }

  lemma DistinctHead(keys: seq<string>)
    requires keys != []
    ensures Distinct(keys) <==> Distinct(keys[1..]) && keys[0] !in keys[1..]
    ensures forall x :: x in keys <==> x == keys[0] || x in keys[1..]
  {
  }

  lemma SnapshotTail(keys: seq<string>, rows: Rows)
    requires keys != [] && forall k | k in keys :: k in rows
    ensures keys[0] in keys && forall k | k in keys[1..] :: k in rows
    ensures SnapshotMessages(keys, rows)[1..] == SnapshotMessages(keys[1..], rows)
  {
    assert forall x | x in keys[1..] :: x in keys;
  }

  lemma {:induction false} InsertsAccepted(keys: seq<string>, rows: Rows, held: Rows)
    requires forall k | k in keys :: k in rows
    ensures Client(held, SnapshotMessages(keys, rows)).Some? <==> Distinct(keys) && forall k | k in keys :: k !in held
    decreases |keys|
  {
    if keys != [] {
      SnapshotTail(keys, rows);
      DistinctHead(keys);
      if keys[0] !in held {
        InsertsAccepted(keys[1..], rows, held[keys[0] := rows[keys[0]]]);
      }
    }
  }

  lemma {:induction false} InsertsHeld(keys: seq<string>, rows: Rows, held: Rows)
    requires forall k | k in keys :: k in rows
    requires Client(held, SnapshotMessages(keys, rows)).Some?
    ensures var got := Client(held, SnapshotMessages(keys, rows)).value;
            forall k :: (k in got <==> k in keys || k in held)
                        && (k in got ==> got[k] == if k in keys then rows[k] else held[k])
    decreases |keys|
  {
    if keys != [] {
      SnapshotTail(keys, rows);
      DistinctHead(keys);
      InsertsHeld(keys[1..], rows, held[keys[0] := rows[keys[0]]]);
    }
  }

  lemma {:induction false} OrderedKeysAreLive(order: seq<string>, rows: Rows)
    ensures forall k | k in OrderedKeys(order, rows) :: k in rows
  {
    if order != [] {
      OrderedKeysAreLive(order[1..], rows);
    }
  }

  /** A strict client accepts the snapshot exactly when no live key was inserted twice, that is, deleted
      and upserted again; what it then holds are the folded rows. */
  lemma SnapshotAcceptedIff(envs: seq<Envelope>)
    ensures var f := FoldMany(TailFold(), envs);
            && (forall k | k in OrderedKeys(f.order, f.rows) :: k in f.rows)
            && var answer := Client(map[], SnapshotMessages(OrderedKeys(f.order, f.rows), f.rows));
            && (answer.Some? <==> forall k | k in f.rows :: Insertions(map[], envs, k) == 1)
            && (answer.Some? ==> answer.value == f.rows)
  {
    var f := FoldMany(TailFold(), envs);
    var keys := OrderedKeys(f.order, f.rows);
    OrderedKeysAreLive(f.order, f.rows);
    InsertsAccepted(keys, f.rows, map[]);
    DistinctIff(keys);
    forall k
      ensures k in keys <==> k in f.rows
      ensures k in f.rows ==> multiset(keys)[k] == Insertions(map[], envs, k)
    {
      SnapshotEmitsPerInsertion(envs, k);
      assert k in keys <==> multiset(keys)[k] > 0;
    }
    if Client(map[], SnapshotMessages(keys, f.rows)).Some? {
      InsertsHeld(keys, f.rows, map[]);
    }
  }

  /** Insert, delete, insert: the snapshot holds the key twice, and a strict client refuses it. */
  lemma ReinsertedKeyIsRefused(put: Envelope, drop: Envelope)
    requires !put.isDelete && put.value.Some? && drop.isDelete && drop.key == put.key
    ensures var f := FoldMany(TailFold(), [put, drop, put]);
            && OrderedKeys(f.order, f.rows) == [put.key, put.key] && f.rows == map[put.key := put.value.value]
            && Client(map[], SnapshotMessages([put.key, put.key], f.rows)).None?
  {
    var k, v := put.key, put.value.value;
    var f1 := FoldOne(TailFold(), put);
    var f2 := FoldOne(f1, drop);
    var f3 := FoldOne(f2, put);
    assert f2.rows == map[] && f3.order == [k, k];
    assert [put, drop, put][1..] == [drop, put] && [drop, put][1..] == [put] && [put][1..] == [];
    assert FoldMany(f2, [put]) == FoldMany(f3, []) == f3;
    assert FoldMany(f1, [drop, put]) == f3;
    assert FoldMany(TailFold(), [put, drop, put]) == f3;
    assert [k, k][1..] == [k] && [k][1..] == [];
    assert OrderedKeys([k], f3.rows) == [k] + OrderedKeys([], f3.rows);
    var msgs := SnapshotMessages([k, k], f3.rows);
    assert msgs[1..][0] == Insert(k, Some(v), None);
  }
}
