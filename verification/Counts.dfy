/**
 The counts circuit: an at-least-once log of stamped row deltas, de-duplicated by a high-water mark,
 maintains per-group counts that must equal a batch GROUP BY over the table.
 */
module Counts {
  import opened Basics
  import opened Values

  /** Weighted rows: `+1` inserts a row, `-1` deletes one. */
  type Delta = seq<(Row, int)>

  /** Commit position and index within the transaction. */
  type Stamp = (nat, nat)

  datatype StampedDelta = StampedDelta(table: string, delta: Delta, lsn: Option<nat>, seqNo: Option<nat>)

  /** Group to count; a group whose count is zero is absent. */
  type GroupCounts = map<Row, int>

  /** The net changes of one step, by table and group: a group is listed at most once. */
  type CountDeltas = map<(string, Row), int>

  predicate StampLe(a: Stamp, b: Stamp) {
    a.0 < b.0 || (a.0 == b.0 && a.1 <= b.1)
  }

  // ---- De-duplication -----------------------------------------------------------------------------

  predicate IsStamped(d: StampedDelta) {
    d.lsn.Some? && d.seqNo.Some?
  }

  function StampOf(d: StampedDelta): Stamp
    requires IsStamped(d)
  {
    (d.lsn.value, d.seqNo.value)
  }

  /** A stamp at or below the high-water mark has been applied already. */
  predicate Repeated(highwater: Option<Stamp>, d: StampedDelta) {
    IsStamped(d) && highwater.Some? && StampLe(StampOf(d), highwater.value)
  }

  function Raise(highwater: Option<Stamp>, d: StampedDelta): Option<Stamp> {
    if IsStamped(d) then Some(StampOf(d)) else highwater
  }

  /** What passes the filter, and the mark afterwards. */
  function Accept(highwater: Option<Stamp>, ds: seq<StampedDelta>): (seq<StampedDelta>, Option<Stamp>)
    decreases |ds|
  {
    if ds == [] then ([], highwater)
    else if Repeated(highwater, ds[0]) then Accept(highwater, ds[1..])
    else
      var (rest, last) := Accept(Raise(highwater, ds[0]), ds[1..]);
      ([ds[0]] + rest, last)
  }

  // ---- Counting -----------------------------------------------------------------------------------

  function Count(m: GroupCounts, g: Row): int {
    if g in m then m[g] else 0
  }

  /** The weight a delta puts on a group. */
  function GroupSum(delta: Delta, cols: seq<nat>, g: Row): int {
    if delta == [] then 0
    else (if Project(delta[0].0, cols) == g then delta[0].1 else 0) + GroupSum(delta[1..], cols, g)
  }

  /** The circuit's integration of a delta into the counts. */
  function Integrate(m: GroupCounts, cols: seq<nat>, delta: Delta): GroupCounts
    decreases |delta|
  {
    if delta == [] then m
    else
      var g := Project(delta[0].0, cols);
      var n := Count(m, g) + delta[0].1;
      Integrate(if n == 0 then m - {g} else m[g := n], cols, delta[1..])
  }

  /** The rows of one table among the accepted deltas, in order. */
  function Gather(ds: seq<StampedDelta>, table: string): Delta {
    if ds == [] then [] else (if ds[0].table == table then ds[0].delta else []) + Gather(ds[1..], table)
  }

  ghost predicate NoZero(m: GroupCounts) {
    forall g | g in m :: m[g] != 0
  }

  lemma {:induction false} IntegrateAdds(m: GroupCounts, cols: seq<nat>, delta: Delta, g: Row)
    requires NoZero(m)
    ensures NoZero(Integrate(m, cols, delta))
    ensures Count(Integrate(m, cols, delta), g) == Count(m, g) + GroupSum(delta, cols, g)
    decreases |delta|
  {
    if delta != [] {
      var h := Project(delta[0].0, cols);
      var n := Count(m, h) + delta[0].1;
      IntegrateAdds(if n == 0 then m - {h} else m[h := n], cols, delta[1..], g);
    }
  }

  /** Exactly the changed groups of the tables are listed, each with its new count minus its old one. */
  ghost predicate AreChanges(out: CountDeltas, old_: map<string, GroupCounts>, new_: map<string, GroupCounts>, tables: set<string>)
    requires tables <= old_.Keys && tables <= new_.Keys
  {
    && (forall t, g :: (t, g) in out <==> t in tables && Count(new_[t], g) != Count(old_[t], g))
    && (forall t, g | (t, g) in out :: t in tables && out[(t, g)] == Count(new_[t], g) - Count(old_[t], g))
  }

  /** The output relation's change for one group: the old count retracted, the new one inserted. */
  function OutputRows(before: int, after: int): seq<(int, int)> {
    if before == after then []
    else (if before != 0 then [(before, -1)] else []) + (if after != 0 then [(after, 1)] else [])
  }

  /** The cursor's sum of value times weight over one group's output rows. */
  method SumRows(before: int, after: int) returns (delta: int)
    ensures delta == after - before
  {
    var rows := OutputRows(before, after);
    delta := 0;
    for k := 0 to |rows|
      invariant k == 0 ==> delta == 0
      invariant k == 1 ==> delta == rows[0].0 * rows[0].1
      invariant k == 2 ==> delta == rows[0].0 * rows[0].1 + rows[1].0 * rows[1].1
    {
      delta := delta + rows[k].0 * rows[k].1;
    }
  }

  /** Draining one table's output, group by group. */
  method DrainTable(before: GroupCounts, after: GroupCounts) returns (out: map<Row, int>)
    ensures forall g :: g in out <==> Count(after, g) != Count(before, g)
    ensures forall g | g in out :: out[g] == Count(after, g) - Count(before, g)
  {
    out := map[];
    var groups := before.Keys + after.Keys;
    ghost var done: set<Row> := {};
    while groups != {}
      invariant groups !! done && groups + done == before.Keys + after.Keys
      invariant forall g :: g in out <==> g in done && Count(after, g) != Count(before, g)
      invariant forall g | g in out :: out[g] == Count(after, g) - Count(before, g)
    {
      var g :| g in groups;
      var delta := SumRows(Count(before, g), Count(after, g));
      if delta != 0 {
        out := out[g := delta];
      }
      groups, done := groups - {g}, done + {g};
    }
  }

  class Circuit {
    const cols: map<string, seq<nat>>
    var highwater: Option<Stamp>
    var counts: map<string, GroupCounts>

    ghost predicate Valid()
      reads this
    {
      counts.Keys == cols.Keys && forall t | t in counts :: NoZero(counts[t])
    }

    constructor (cols: map<string, seq<nat>>)
      ensures Valid() && this.cols == cols && highwater == None && forall t | t in counts :: counts[t] == map[]
    {
      this.cols, highwater, counts := cols, None, map t | t in cols :: map[];
    }

    /** One batch: filter, feed the circuit's inputs, step it once if anything was fed, drain. */
    method Batch(deltas: seq<StampedDelta>) returns (out: CountDeltas)
      requires Valid()
      modifies this
      ensures Valid()
      ensures highwater == Accept(old(highwater), deltas).1
      ensures forall t | t in cols ::
                counts[t] == Integrate(old(counts)[t], cols[t], Gather(Accept(old(highwater), deltas).0, t))
      ensures AreChanges(out, old(counts), counts, cols.Keys)
    {
      var inputs, touched := Feed(deltas);
      out := map[];
      if touched {
        out := Transaction(inputs);
      }
    }

    /** The thread's loop over the batches it is sent. What it publishes adds up: from the counts before
        the first batch, the published changes lead to the counts held after the last. */
    method Serve(batches: seq<seq<StampedDelta>>) returns (outs: seq<CountDeltas>)
      requires Valid()
      modifies this
      ensures Valid() && |outs| == |batches|
      ensures forall t | t in cols :: counts[t] == CountsAfter(old(counts)[t], cols[t], t, old(highwater), batches)
      ensures forall t, g | t in cols :: Count(old(counts)[t], g) + Published(outs, t, g) == Count(counts[t], g)
    {
      outs := [];
      var i := 0;
      assert batches[0..] == batches;
      while i < |batches|
        invariant i <= |batches| && |outs| == i && Valid()
        invariant forall t | t in cols ::
                    CountsAfter(counts[t], cols[t], t, highwater, batches[i..])
                    == CountsAfter(old(counts)[t], cols[t], t, old(highwater), batches)
        invariant forall t, g | t in cols :: Count(old(counts)[t], g) + Published(outs, t, g) == Count(counts[t], g)
      {
        assert batches[i..][0] == batches[i] && batches[i..][1..] == batches[i + 1..];
        var out := Batch(batches[i]);
        forall t, g | t in cols
          ensures Published(outs + [out], t, g) == Published(outs, t, g) + ChangeOf(out, t, g)
        {
          assert (outs + [out])[..|outs|] == outs;
        }
        outs := outs + [out];
        i := i + 1;
      }
    }

    /** Whether a delta is new; a new stamp raises the mark, whatever becomes of the delta. */
    method Admit(d: StampedDelta) returns (isNew: bool)
      modifies this`highwater
      ensures isNew <==> !Repeated(old(highwater), d)
      ensures highwater == if isNew then Raise(old(highwater), d) else old(highwater)
    {
      isNew := true;
      if d.lsn.Some? && d.seqNo.Some? {
        if highwater.Some? && StampLe((d.lsn.value, d.seqNo.value), highwater.value) {
          return false;
        }
        highwater := Some((d.lsn.value, d.seqNo.value));
      }
    }

    /** The filter loop: what is new goes to the inputs of its table, if the circuit knows the table. */
    method Feed(deltas: seq<StampedDelta>) returns (inputs: map<string, Delta>, touched: bool)
      modifies this`highwater
      ensures highwater == Accept(old(highwater), deltas).1
      ensures inputs.Keys == cols.Keys
      ensures forall t | t in cols :: inputs[t] == Gather(Accept(old(highwater), deltas).0, t)
      ensures !touched ==> forall t | t in cols :: inputs[t] == []
    {
      inputs, touched := map t | t in cols :: [], false;
      ghost var accepted: seq<StampedDelta> := [];
      var i := 0;
      assert deltas[0..] == deltas;
      while i < |deltas|
        invariant i <= |deltas| && inputs.Keys == cols.Keys
        invariant Accept(highwater, deltas[i..]).1 == Accept(old(highwater), deltas).1
        invariant accepted + Accept(highwater, deltas[i..]).0 == Accept(old(highwater), deltas).0
        invariant forall t | t in cols :: inputs[t] == Gather(accepted, t)
        invariant !touched ==> forall t | t in cols :: inputs[t] == []
      {
        var d := deltas[i];
        AcceptHead(highwater, deltas, i);
        i := i + 1;
        var isNew := Admit(d);
        if !isNew {
          continue;
        }
        GatherAppend(accepted, d);
        accepted := accepted + [d];
        if d.delta == [] || d.table !in cols {
          continue;
        }
        inputs := inputs[d.table := inputs[d.table] + d.delta];
        touched := true;
      }
      assert deltas[i..] == [] && accepted + [] == accepted;
    }

    /** The circuit's step on what its inputs hold, and the drained outputs of every table. */
    method Transaction(inputs: map<string, Delta>) returns (out: CountDeltas)
      requires Valid() && inputs.Keys == cols.Keys
      modifies this`counts
      ensures Valid()
      ensures forall t | t in cols :: counts[t] == Integrate(old(counts)[t], cols[t], inputs[t])
      ensures AreChanges(out, old(counts), counts, cols.Keys)
    {
      var before := counts;
      counts := Step(inputs);
      out := DrainAll(before, counts);
    }

    /** The new counts of every table. */
    function Step(inputs: map<string, Delta>): (after: map<string, GroupCounts>)
      requires Valid() && inputs.Keys == cols.Keys
      reads this
      ensures after.Keys == cols.Keys
      ensures forall t | t in cols :: after[t] == Integrate(counts[t], cols[t], inputs[t]) && NoZero(after[t])
    {
      assert forall t | t in cols :: NoZero(Integrate(counts[t], cols[t], inputs[t])) by {
        forall t | t in cols ensures NoZero(Integrate(counts[t], cols[t], inputs[t])) {
          IntegrateAdds(counts[t], cols[t], inputs[t], []);
        }
      }
      map t | t in cols :: Integrate(counts[t], cols[t], inputs[t])
    }
  }

  /** The counts after batch upon batch, carrying the mark. */
  function CountsAfter(m: GroupCounts, cols: seq<nat>, table: string, highwater: Option<Stamp>,
                       batches: seq<seq<StampedDelta>>): GroupCounts
    decreases |batches|
  {
    if batches == [] then m
    else
      var (accepted, mark) := Accept(highwater, batches[0]);
      CountsAfter(Integrate(m, cols, Gather(accepted, table)), cols, table, mark, batches[1..])
  }

  function ChangeOf(out: CountDeltas, table: string, g: Row): int {
    if (table, g) in out then out[(table, g)] else 0
  }

  /** The sum of what was published for a group. */
  function Published(outs: seq<CountDeltas>, table: string, g: Row): int {
    if outs == [] then 0 else Published(outs[..|outs| - 1], table, g) + ChangeOf(outs[|outs| - 1], table, g)
  }

  /** Every table's output, one table at a time. */
  method DrainAll(before: map<string, GroupCounts>, after: map<string, GroupCounts>) returns (out: CountDeltas)
    requires before.Keys == after.Keys
    ensures AreChanges(out, before, after, before.Keys)
  {
    var tables := before.Keys;
    out := map[];
    ghost var done: set<string> := {};
    while tables != {}
      invariant tables !! done && tables + done == before.Keys
      invariant AreChanges(out, before, after, done)
    {
      var t :| t in tables;
      var more := DrainTable(before[t], after[t]);
      out := out + map g | g in more :: (t, g) := more[g];
      tables, done := tables - {t}, done + {t};
    }
    assert done == before.Keys;
  }

  /** Every current group of a table with its count: the values of positive weight in the trace. */
  method CountGroups(trace: GroupCounts) returns (out: seq<(Row, int)>)
    ensures forall g, n :: (g, n) in out <==> g in trace && trace[g] == n && n != 0
    ensures forall i, j | 0 <= i < j < |out| :: out[i].0 != out[j].0
  {
    out := [];
    var groups := trace.Keys;
    ghost var done: set<Row> := {};
    while groups != {}
      invariant groups !! done && groups + done == trace.Keys
      invariant forall g, n :: (g, n) in out <==> g in done && trace[g] == n && n != 0
      invariant forall i, j | 0 <= i < j < |out| :: out[i].0 != out[j].0
      invariant forall i | 0 <= i < |out| :: out[i].0 in done
    {
      var g :| g in groups;
      if trace[g] != 0 {
        out := out + [(g, trace[g])];
      }
      groups, done := groups - {g}, done + {g};
    }
  }

  lemma AcceptHead(highwater: Option<Stamp>, ds: seq<StampedDelta>, i: nat)
    requires i < |ds|
    ensures Repeated(highwater, ds[i]) ==> Accept(highwater, ds[i..]) == Accept(highwater, ds[i + 1..])
    ensures !Repeated(highwater, ds[i]) ==>
              && Accept(highwater, ds[i..]).0 == [ds[i]] + Accept(Raise(highwater, ds[i]), ds[i + 1..]).0
              && Accept(highwater, ds[i..]).1 == Accept(Raise(highwater, ds[i]), ds[i + 1..]).1
  {
    assert ds[i..][0] == ds[i] && ds[i..][1..] == ds[i + 1..];
  }

  lemma {:induction false} GatherAppend(ds: seq<StampedDelta>, d: StampedDelta)
    ensures forall t :: Gather(ds + [d], t) == if d.table == t then Gather(ds, t) + d.delta else Gather(ds, t)
    decreases |ds|
  {
    if ds == [] {
      assert forall t :: Gather([d], t) == if d.table == t then d.delta else [];
    } else {
      assert (ds + [d])[0] == ds[0] && (ds + [d])[1..] == ds[1..] + [d];
      GatherAppend(ds[1..], d);
    }
  }

  // ---- Exactly once -------------------------------------------------------------------------------

  ghost predicate StampLt(a: Stamp, b: Stamp) {
    StampLe(a, b) && a != b
  }

  /** The log: every change stamped, stamps strictly increasing. */
  ghost predicate StampedLog(log: seq<StampedDelta>) {
    && (forall i | 0 <= i < |log| :: IsStamped(log[i]))
    && (forall i, j | 0 <= i < j < |log| :: StampLt(StampOf(log[i]), StampOf(log[j])))
  }

  /** A delivery attempt: a run of the log, from `from` up to `to`. */
  datatype Attempt = Attempt(from: nat, to: nat)

  /** Each attempt restarts at or before the first change not yet delivered and proceeds in order. */
  ghost predicate NoGap(attempts: seq<Attempt>, reached: nat, len: nat)
    decreases |attempts|
  {
    attempts == [] || (
      var a := attempts[0];
      a.from <= a.to <= len && a.from <= reached && NoGap(attempts[1..], if a.to > reached then a.to else reached, len))
  }

  ghost function Reach(attempts: seq<Attempt>, reached: nat): nat
    decreases |attempts|
  {
    if attempts == [] then reached
    else Reach(attempts[1..], if attempts[0].to > reached then attempts[0].to else reached)
  }

  ghost function Delivery(log: seq<StampedDelta>, attempts: seq<Attempt>): seq<StampedDelta>
    requires forall a | a in attempts :: a.from <= a.to <= |log|
  {
    if attempts == [] then [] else log[attempts[0].from..attempts[0].to] + Delivery(log, attempts[1..])
  }

  ghost function MarkAt(log: seq<StampedDelta>, n: nat): Option<Stamp>
    requires StampedLog(log) && n <= |log|
  {
    if n == 0 then None else Some(StampOf(log[n - 1]))
  }

  lemma {:induction false} AcceptConcat(highwater: Option<Stamp>, a: seq<StampedDelta>, b: seq<StampedDelta>)
    ensures Accept(highwater, a + b).0 == Accept(highwater, a).0 + Accept(Accept(highwater, a).1, b).0
    ensures Accept(highwater, a + b).1 == Accept(Accept(highwater, a).1, b).1
    decreases |a|
  {
    if a == [] {
      assert a + b == b;
    } else {
      assert (a + b)[0] == a[0] && (a + b)[1..] == a[1..] + b;
      if Repeated(highwater, a[0]) {
        AcceptConcat(highwater, a[1..], b);
      } else {
        AcceptConcat(Raise(highwater, a[0]), a[1..], b);
      }
    }
  }

  /** What lies at or before the mark is dropped. */
  lemma {:induction false} AcceptRepeats(log: seq<StampedDelta>, from: nat, to: nat, reached: nat)
    requires StampedLog(log) && from <= to <= reached <= |log|
    ensures Accept(MarkAt(log, reached), log[from..to]) == ([], MarkAt(log, reached))
    decreases |log[from..to]|
  {
    if from < to {
      assert log[from..to][0] == log[from] && log[from..to][1..] == log[from + 1..to];
      assert from < reached - 1 ==> StampLt(StampOf(log[from]), StampOf(log[reached - 1]));
      AcceptRepeats(log, from + 1, to, reached);
    }
  }

  /** What follows the mark is applied, and raises it. */
  lemma {:induction false} AcceptFresh(log: seq<StampedDelta>, from: nat, to: nat)
    requires StampedLog(log) && from <= to <= |log|
    ensures Accept(MarkAt(log, from), log[from..to]).0 == log[from..to]
    ensures Accept(MarkAt(log, from), log[from..to]).1 == MarkAt(log, to)
    decreases |log[from..to]|
  {
    if from < to {
      assert log[from..to][0] == log[from] && log[from..to][1..] == log[from + 1..to];
      assert from > 0 ==> StampLt(StampOf(log[from - 1]), StampOf(log[from]));
      AcceptFresh(log, from + 1, to);
    }
  }

  /** One attempt from within the delivered part: the repeats are dropped, the rest applied in order. */
  lemma AcceptRun(log: seq<StampedDelta>, from: nat, to: nat, reached: nat)
    requires StampedLog(log) && from <= to <= |log| && from <= reached <= |log|
    ensures Accept(MarkAt(log, reached), log[from..to]).0 == if to > reached then log[reached..to] else []
    ensures Accept(MarkAt(log, reached), log[from..to]).1 == MarkAt(log, if to > reached then to else reached)
  {
    if to <= reached {
      AcceptRepeats(log, from, to, reached);
    } else {
      assert log[from..to] == log[from..reached] + log[reached..to];
      AcceptConcat(MarkAt(log, reached), log[from..reached], log[reached..to]);
      AcceptRepeats(log, from, reached, reached);
      AcceptFresh(log, reached, to);
    }
  }

  lemma {:induction false} GaplessReach(attempts: seq<Attempt>, reached: nat, len: nat)
    requires reached <= len && NoGap(attempts, reached, len)
    ensures forall a | a in attempts :: a.from <= a.to <= len
    ensures reached <= Reach(attempts, reached) <= len
    decreases |attempts|
  {
    if attempts != [] {
      GaplessReach(attempts[1..], if attempts[0].to > reached then attempts[0].to else reached, len);
      assert forall a | a in attempts :: a == attempts[0] || a in attempts[1..];
    }
  }

  lemma {:induction false} DeliveryAccepted(log: seq<StampedDelta>, attempts: seq<Attempt>, reached: nat)
    requires StampedLog(log) && reached <= |log| && NoGap(attempts, reached, |log|)
    ensures forall a | a in attempts :: a.from <= a.to <= |log|
    ensures reached <= Reach(attempts, reached) <= |log|
    ensures Accept(MarkAt(log, reached), Delivery(log, attempts)).0 == log[reached..Reach(attempts, reached)]
    decreases |attempts|
  {
    GaplessReach(attempts, reached, |log|);
    if attempts != [] {
      var a := attempts[0];
      var next := if a.to > reached then a.to else reached;
      GaplessReach(attempts[1..], next, |log|);
      DeliveryAccepted(log, attempts[1..], next);
      AcceptRun(log, a.from, a.to, reached);
      AcceptConcat(MarkAt(log, reached), log[a.from..a.to], Delivery(log, attempts[1..]));
      var end := Reach(attempts, reached);
      assert log[reached..end] == log[reached..next] + log[next..end];
    }
  }

  // ---- Any log, stamped or not --------------------------------------------------------------------

  /** A later commit, or the same one and a later change in it. */
  predicate Above(a: Stamp, b: Stamp) {
    a.0 > b.0 || (a.0 == b.0 && a.1 > b.1)
  }

  /** Above the mark there was, and above every stamp among the deltas. */
  predicate AboveAll(s: Stamp, highwater: Option<Stamp>, ds: seq<StampedDelta>) {
    && (highwater.Some? ==> Above(s, highwater.value))
    && forall k | 0 <= k < |ds| && ds[k].lsn.Some? && ds[k].seqNo.Some? ::
         Above(s, (ds[k].lsn.value, ds[k].seqNo.value))
  }

  /** A delta without a stamp, or with one above everything before it. */
  predicate IsNew(highwater: Option<Stamp>, ds: seq<StampedDelta>, i: nat) {
    && i < |ds|
    && (ds[i].lsn.Some? && ds[i].seqNo.Some? ==>
          AboveAll((ds[i].lsn.value, ds[i].seqNo.value), highwater, ds[..i]))
  }

  /** The mark stands for all the stamps there have been. */
  lemma {:induction false} MarkIsHighest(highwater: Option<Stamp>, ds: seq<StampedDelta>, s: Stamp)
    ensures var mark := Accept(highwater, ds).1;
            (mark.Some? ==> Above(s, mark.value)) <==> AboveAll(s, highwater, ds)
    decreases |ds|
  {
    if ds != [] {
      var next := if Repeated(highwater, ds[0]) then highwater else Raise(highwater, ds[0]);
      MarkIsHighest(next, ds[1..], s);
      assert forall k | 0 < k < |ds| :: ds[k] == ds[1..][k - 1];
      assert AboveAll(s, next, ds[1..]) <==> AboveAll(s, highwater, ds);
    }
  }

  lemma AcceptLast(highwater: Option<Stamp>, ds: seq<StampedDelta>)
    requires ds != []
    ensures var last := |ds| - 1;
            Accept(highwater, ds).0 == Accept(highwater, ds[..last]).0 + if IsNew(highwater, ds, last) then [ds[last]] else []
  {
    var last := |ds| - 1;
    var d, mark := ds[last], Accept(highwater, ds[..last]).1;
    assert ds == ds[..last] + [d];
    AcceptConcat(highwater, ds[..last], [d]);
    assert [d][1..] == [];
    if IsStamped(d) {
      MarkIsHighest(highwater, ds[..last], StampOf(d));
    }
  }

  /** Which deltas are applied, whatever the log: in their order, exactly those without a stamp and those
      whose stamp is above the mark and above every stamp before it. */
  lemma {:induction false} AcceptedAre(highwater: Option<Stamp>, ds: seq<StampedDelta>) returns (at: seq<nat>)
    ensures Ascending(at) && forall i: nat :: i in at <==> IsNew(highwater, ds, i)
    ensures |at| == |Accept(highwater, ds).0|
    ensures forall j | 0 <= j < |at| :: at[j] < |ds| && Accept(highwater, ds).0[j] == ds[at[j]]
    decreases |ds|
  {
    at := [];
    if ds != [] {
      var last := |ds| - 1;
      at := AcceptedAre(highwater, ds[..last]);
      AcceptLast(highwater, ds);
      forall i: nat
        ensures i in at <==> i < last && IsNew(highwater, ds, i)
      {
        if i < last {
          assert ds[..last][..i] == ds[..i];
        }
      }
      forall j | 0 <= j < |at|
        ensures at[j] < last
      {
        assert at[j] in at;
      }
      at := at + if IsNew(highwater, ds, last) then [last] else [];
    }
  }

  function Flatten(batches: seq<seq<StampedDelta>>): seq<StampedDelta> {
    if batches == [] then [] else batches[0] + Flatten(batches[1..])
  }

  /** What a run of the circuit over batches accepts, batch by batch, carrying the mark. */
  function AcceptBatches(highwater: Option<Stamp>, batches: seq<seq<StampedDelta>>): seq<StampedDelta>
    decreases |batches|
  {
    if batches == [] then []
    else
      var (first, mark) := Accept(highwater, batches[0]);
      first + AcceptBatches(mark, batches[1..])
  }

  lemma {:induction false} BatchingIsIrrelevant(highwater: Option<Stamp>, batches: seq<seq<StampedDelta>>)
    ensures AcceptBatches(highwater, batches) == Accept(highwater, Flatten(batches)).0
    decreases |batches|
  {
    if batches != [] {
      BatchingIsIrrelevant(Accept(highwater, batches[0]).1, batches[1..]);
      AcceptConcat(highwater, batches[0], Flatten(batches[1..]));
    }
  }

  /** However often delivery restarts and however it is cut into batches, each change of the log up to the
      furthest one delivered is applied exactly once, in order. */
  lemma ExactlyOnce(log: seq<StampedDelta>, attempts: seq<Attempt>, batches: seq<seq<StampedDelta>>)
    requires StampedLog(log) && NoGap(attempts, 0, |log|)
    requires forall a | a in attempts :: a.from <= a.to <= |log|
    requires Flatten(batches) == Delivery(log, attempts)
    ensures Reach(attempts, 0) <= |log|
    ensures AcceptBatches(None, batches) == log[..Reach(attempts, 0)]
  {
    DeliveryAccepted(log, attempts, 0);
    BatchingIsIrrelevant(None, batches);
  }

  // ---- Equal to a batch GROUP BY ------------------------------------------------------------------

  /** `SELECT count(*) ... GROUP BY cols`, for one group, over a table's rows in any order. */
  function GroupBy(rows: seq<Row>, cols: seq<nat>, g: Row): nat {
    if rows == [] then 0
    else (if Project(rows[0], cols) == g then 1 else 0) + GroupBy(rows[1..], cols, g)
  }

  /** The net weight of a row in a delta. */
  function Net(delta: Delta, r: Row): int {
    if delta == [] then 0 else (if delta[0].0 == r then delta[0].1 else 0) + Net(delta[1..], r)
  }

  function Without(delta: Delta, r: Row): (rest: Delta)
    ensures |rest| <= |delta|
  {
    if delta == [] then []
    else if delta[0].0 == r then Without(delta[1..], r)
    else [delta[0]] + Without(delta[1..], r)
  }

  lemma {:induction false} WithoutSums(delta: Delta, cols: seq<nat>, g: Row, r: Row, s: Row)
    ensures GroupSum(delta, cols, g)
            == (if Project(r, cols) == g then Net(delta, r) else 0) + GroupSum(Without(delta, r), cols, g)
    ensures Net(Without(delta, r), s) == if s == r then 0 else Net(delta, s)
  {
    if delta != [] {
      WithoutSums(delta[1..], cols, g, r, s);
    }
  }

  /** A delta in which every row cancels adds nothing to any group. */
  lemma {:induction false} NetZeroSumsToZero(delta: Delta, cols: seq<nat>, g: Row)
    requires forall r :: Net(delta, r) == 0
    ensures GroupSum(delta, cols, g) == 0
    decreases |delta|
  {
    if delta != [] {
      var r := delta[0].0;
      forall s
        ensures Net(Without(delta, r), s) == 0
      {
        WithoutSums(delta, cols, g, r, s);
      }
      WithoutSums(delta, cols, g, r, r);
      assert Without(delta, r) == Without(delta[1..], r);
      NetZeroSumsToZero(Without(delta, r), cols, g);
    }
  }

  function AsDelta(rows: seq<Row>, weight: int): (d: Delta)
    ensures |d| == |rows| && forall i | 0 <= i < |rows| :: d[i] == (rows[i], weight)
  {
    seq(|rows|, i requires 0 <= i < |rows| => (rows[i], weight))
  }

  lemma {:induction false} RowsAsDelta(rows: seq<Row>, weight: int, cols: seq<nat>, g: Row, r: Row)
    requires weight == 1 || weight == -1
    ensures GroupSum(AsDelta(rows, weight), cols, g) == weight * GroupBy(rows, cols, g)
    ensures Net(AsDelta(rows, weight), r) == weight * multiset(rows)[r]
  {
    if rows != [] {
      assert AsDelta(rows, weight)[1..] == AsDelta(rows[1..], weight);
      assert rows == [rows[0]] + rows[1..];
      RowsAsDelta(rows[1..], weight, cols, g, r);
    }
  }

  lemma {:induction false} SumsConcat(a: Delta, b: Delta, cols: seq<nat>, g: Row, r: Row)
    ensures GroupSum(a + b, cols, g) == GroupSum(a, cols, g) + GroupSum(b, cols, g)
    ensures Net(a + b, r) == Net(a, r) + Net(b, r)
  {
    if a == [] {
      assert a + b == b;
    } else {
      assert (a + b)[0] == a[0] && (a + b)[1..] == a[1..] + b;
      SumsConcat(a[1..], b, cols, g, r);
    }
  }

  /** A delta that turns one table's rows into another's moves every group's count by the difference of the
      two GROUP BYs. */
  lemma DeltaMovesGroupBy(before: seq<Row>, after: seq<Row>, delta: Delta, cols: seq<nat>, g: Row)
    requires forall r :: multiset(after)[r] == multiset(before)[r] + Net(delta, r)
    ensures GroupSum(delta, cols, g) == GroupBy(after, cols, g) - GroupBy(before, cols, g)
  {
    var gained, lost := AsDelta(before, 1), AsDelta(after, -1);
    var all := delta + gained + lost;
    forall r
      ensures Net(all, r) == 0
    {
      SumsConcat(delta + gained, lost, cols, g, r);
      SumsConcat(delta, gained, cols, g, r);
      RowsAsDelta(before, 1, cols, g, r);
      RowsAsDelta(after, -1, cols, g, r);
    }
    NetZeroSumsToZero(all, cols, g);
    SumsConcat(delta + gained, lost, cols, g, []);
    SumsConcat(delta, gained, cols, g, []);
    RowsAsDelta(before, 1, cols, g, []);
    RowsAsDelta(after, -1, cols, g, []);
  }

  /** Seeded with one row per group weighted by the group's count, the circuit counts as if it had been
      fed every row. */
  lemma {:induction false} SeedIsGroupBy(groups: seq<(Row, int)>, rows: seq<Row>, cols: seq<nat>, g: Row)
    requires forall h :: GroupSum(groups, cols, h) == GroupBy(rows, cols, h)
    ensures Count(Integrate(map[], cols, groups), g) == GroupBy(rows, cols, g)
    ensures Count(Integrate(map[], cols, AsDelta(rows, 1)), g) == GroupBy(rows, cols, g)
  {
    IntegrateAdds(map[], cols, groups, g);
    IntegrateAdds(map[], cols, AsDelta(rows, 1), g);
    RowsAsDelta(rows, 1, cols, g, []);
  }

  lemma {:induction false} GatherConcat(a: seq<StampedDelta>, b: seq<StampedDelta>, table: string)
    ensures Gather(a + b, table) == Gather(a, table) + Gather(b, table)
  {
    if a == [] {
      assert a + b == b;
    } else {
      assert (a + b)[0] == a[0] && (a + b)[1..] == a[1..] + b;
      GatherConcat(a[1..], b, table);
    }
  }

  /** Counting batch by batch adds up to counting everything accepted. */
  lemma {:induction false} CountsAfterAdds(m: GroupCounts, cols: seq<nat>, table: string, highwater: Option<Stamp>,
                                           batches: seq<seq<StampedDelta>>, g: Row)
    requires NoZero(m)
    ensures NoZero(CountsAfter(m, cols, table, highwater, batches))
    ensures Count(CountsAfter(m, cols, table, highwater, batches), g)
            == Count(m, g) + GroupSum(Gather(AcceptBatches(highwater, batches), table), cols, g)
    decreases |batches|
  {
    if batches != [] {
      var (accepted, mark) := Accept(highwater, batches[0]);
      var first, rest := Gather(accepted, table), AcceptBatches(mark, batches[1..]);
      IntegrateAdds(m, cols, first, g);
      CountsAfterAdds(Integrate(m, cols, first), cols, table, mark, batches[1..], g);
      GatherConcat(accepted, rest, table);
      SumsConcat(first, Gather(rest, table), cols, g, []);
    }
  }

  /** Counts seeded from a table, after a run of the circuit over batches that make up an at-least-once
      delivery of its changes, equal the batch GROUP BY over the table as it is after the changes delivered
      so far. */
  lemma CountsEqualGroupBy(log: seq<StampedDelta>, attempts: seq<Attempt>, batches: seq<seq<StampedDelta>>,
                           table: string, cols: seq<nat>, seed: GroupCounts, before: seq<Row>, after: seq<Row>, g: Row)
    requires StampedLog(log) && NoGap(attempts, 0, |log|)
    requires forall a | a in attempts :: a.from <= a.to <= |log|
    requires Flatten(batches) == Delivery(log, attempts)
    requires NoZero(seed) && forall h :: Count(seed, h) == GroupBy(before, cols, h)
    requires Reach(attempts, 0) <= |log|
    requires forall r :: multiset(after)[r] == multiset(before)[r] + Net(Gather(log[..Reach(attempts, 0)], table), r)
    ensures Count(CountsAfter(seed, cols, table, None, batches), g) == GroupBy(after, cols, g)
  {
    ExactlyOnce(log, attempts, batches);
    CountsAfterAdds(seed, cols, table, None, batches, g);
    DeltaMovesGroupBy(before, after, Gather(log[..Reach(attempts, 0)], table), cols, g);
  }
}
