/**
 The page-driven fold of a shape stream: the snapshot's rows, and the key set a client holds at an
 offset. `Fold` and its steps are the fold's state and transitions as values; the class `StreamFold`
 is the object the adapter drives, proved to take those transitions.
 */
module Fold {
  import opened Basics
  import opened Streams

  datatype Fold = Fold(
    rows: Rows, order: seq<string>, offset: Offset, until: Option<Offset>, keysOnly: bool, done: bool)

  function TailFold(): Fold {
    Fold(map[], [], Beginning, None, false, false)
  }

  function KeyFold(target: Offset): Fold {
    Fold(map[], [], Beginning, Some(target), true, false)
  }

  predicate PastTarget(until: Option<Offset>, e: Envelope) {
    until.Some? && e.stamp.Some? && OffsetAfter(e.stamp.value, until.value)
  }

  function FoldOne(f: Fold, e: Envelope): Fold {
    if e.isDelete then f.(rows := f.rows - {e.key})
    else if e.value.None? then f
    else
      var v := if f.keysOnly then NullVal else e.value.value;
      f.(rows := f.rows[e.key := v], order := if e.key in f.rows then f.order else f.order + [e.key])
  }

  /** How many of the envelopes are folded before one is stamped past the target. */
  function Admitted(until: Option<Offset>, envs: seq<Envelope>): (n: nat)
    ensures n <= |envs|
    ensures forall i | 0 <= i < n :: !PastTarget(until, envs[i])
    ensures n < |envs| ==> PastTarget(until, envs[n])
  {
    if envs == [] || PastTarget(until, envs[0]) then 0 else 1 + Admitted(until, envs[1..])
  }

  function FoldMany(f: Fold, envs: seq<Envelope>): Fold
    decreases |envs|
  {
    if envs == [] then f else FoldMany(FoldOne(f, envs[0]), envs[1..])
  }

  /** One page: its admitted envelopes, then the decision whether the fold is over. */
  function FoldPage(f: Fold, r: ReadResult): Fold {
    var n := Admitted(f.until, r.envelopes);
    var g := FoldMany(f, r.envelopes[..n]);
    if n < |r.envelopes| then g.(done := true)
    else
      var advanced := r.nextOffset.Some? && r.nextOffset.value != f.offset;
      g.(offset := if advanced then r.nextOffset.value else f.offset,
         done := f.done || r.upToDate || r.closed || !advanced)
  }

  /** The drive loop: feed the server's answers until the fold says it is done. */
  function Drive(f: Fold, pages: seq<ReadResult>): Fold
    decreases |pages|
  {
    if f.done || pages == [] then f else Drive(FoldPage(f, pages[0]), pages[1..])
  }

  class StreamFold {
    var rows: Rows
    var order: seq<string>
    var offset: Offset
    var until: Option<Offset>
    var keysOnly: bool
    var done: bool

    function State(): Fold
      reads this
    {
      Fold(rows, order, offset, until, keysOnly, done)
    }

    constructor ToTail()
      ensures State() == TailFold()
    {
      rows, order, offset, until, keysOnly, done := map[], [], Beginning, None, false, false;
    }

    constructor UpTo(target: Offset)
      ensures State() == KeyFold(target)
    {
      rows, order, offset, until, keysOnly, done := map[], [], Beginning, Some(target), true, false;
    }

    method ApplyPage(r: ReadResult)
      modifies this
      ensures State() == FoldPage(old(State()), r)
    {
      var i := 0;
      ghost var envs, n := r.envelopes, Admitted(until, r.envelopes);
      assert envs[0..n] == envs[..n];
      while i < |r.envelopes|
        invariant i <= n && until == old(until) && offset == old(offset) && done == old(done)
        invariant keysOnly == old(keysOnly)
        invariant FoldMany(State(), envs[i..n]) == FoldMany(old(State()), envs[..n])
      {
        var e := r.envelopes[i];
        if until.Some? && e.stamp.Some? && OffsetAfter(e.stamp.value, until.value) {
          assert i == n && envs[i..n] == [];
          done := true;
          return;
        }
        assert i < n && envs[i..n][0] == e && envs[i..n][1..] == envs[i + 1..n];
        if e.isDelete {
          rows := rows - {e.key};
        } else if e.value.Some? {
          if e.key !in rows {
            order := order + [e.key];
          }
          rows := rows[e.key := if keysOnly then NullVal else e.value.value];
        }
        i := i + 1;
      }
      assert n == |envs| && envs[i..n] == [];
      var advanced := r.nextOffset.Some? && r.nextOffset.value != offset;
      if advanced {
        offset := r.nextOffset.value;
      }
      if r.upToDate || r.closed || !advanced {
        done := true;
      }
    }

    /** Feeds the server's answers in turn; stops asking once the fold is done. */
    method DriveFold(pages: seq<ReadResult>) returns (asked: nat)
      modifies this
      ensures State() == Drive(old(State()), pages)
      ensures asked <= |pages| && (asked < |pages| ==> done)
    {
      asked := 0;
      assert pages[0..] == pages;
      while !done && asked < |pages|
        invariant asked <= |pages|
        invariant Drive(State(), pages[asked..]) == Drive(old(State()), pages)
      {
        assert pages[asked..][0] == pages[asked] && pages[asked..][1..] == pages[asked + 1..];
        ApplyPage(pages[asked]);
        asked := asked + 1;
      }
    }
  }

  // ---- The fold does not depend on the paging -----------------------------------------------------

  /** Each answer continues where the fold then stands. Every page carries a next offset. */
  ghost predicate AnswersFrom(s: Stream, f: Fold, pages: seq<ReadResult>)
    decreases |pages|
  {
    f.done || pages == [] || (Serves(s, f.offset, pages[0]) && AnswersFrom(s, FoldPage(f, pages[0]), pages[1..]))
  }

  /** The two folds hold the same rows in the same order of first appearance. */
  ghost predicate SameCore(f: Fold, g: Fold) {
    f.rows == g.rows && f.order == g.order && f.keysOnly == g.keysOnly
  }

  lemma {:induction false} FoldManyCore(f: Fold, g: Fold, envs: seq<Envelope>)
    requires SameCore(f, g)
    ensures SameCore(FoldMany(f, envs), FoldMany(g, envs))
    ensures var h := FoldMany(f, envs); h.offset == f.offset && h.until == f.until && h.done == f.done
    decreases |envs|
  {
    if envs != [] {
      FoldManyCore(FoldOne(f, envs[0]), FoldOne(g, envs[0]), envs[1..]);
    }
  }

  lemma {:induction false} FoldManyConcat(f: Fold, a: seq<Envelope>, b: seq<Envelope>)
    ensures FoldMany(f, a + b) == FoldMany(FoldMany(f, a), b)
    decreases |a|
  {
    if a == [] {
      assert a + b == b;
    } else {
      assert (a + b)[0] == a[0] && (a + b)[1..] == a[1..] + b;
      FoldManyConcat(FoldOne(f, a[0]), a[1..], b);
    }
  }

  lemma {:induction false} FoldManyReplays(f: Fold, envs: seq<Envelope>, rows: Rows)
    requires f.rows.Keys == rows.Keys && (!f.keysOnly ==> f.rows == rows)
    ensures FoldMany(f, envs).keysOnly == f.keysOnly
    ensures FoldMany(f, envs).rows.Keys == Replay(rows, envs).Keys
    ensures !f.keysOnly ==> FoldMany(f, envs).rows == Replay(rows, envs)
    decreases |envs|
  {
    if envs != [] {
      FoldManyReplays(FoldOne(f, envs[0]), envs[1..], Step(rows, envs[0]));
    }
  }

  lemma SnapshotPage(s: Stream, f: Fold, r: ReadResult)
    requires Serves(s, f.offset, r) && f.until.None?
    requires SameCore(f, FoldMany(TailFold(), UpTo(s, f.offset)))
    ensures FoldPage(f, r).offset == r.nextOffset.value && FoldPage(f, r).until.None?
    ensures SameCore(FoldPage(f, r), FoldMany(TailFold(), UpTo(s, r.nextOffset.value)))
  {
    PageExtends(s, f.offset, r);
    FoldManyConcat(TailFold(), UpTo(s, f.offset), r.envelopes);
    FoldManyCore(f, FoldMany(TailFold(), UpTo(s, f.offset)), r.envelopes);
    assert r.envelopes[..|r.envelopes|] == r.envelopes;
  }

  /** The snapshot fold: whatever pages the stream is served in, empty advancing ones included, rows and
      order are those of folding the stream in one piece up to the offset reached. */
  lemma {:induction false} SnapshotIgnoresPaging(s: Stream, f: Fold, pages: seq<ReadResult>)
    requires AnswersFrom(s, f, pages) && f.until.None?
    requires SameCore(f, FoldMany(TailFold(), UpTo(s, f.offset)))
    ensures var g := Drive(f, pages); SameCore(g, FoldMany(TailFold(), UpTo(s, g.offset)))
    decreases |pages|
  {
    if !f.done && pages != [] {
      SnapshotPage(s, f, pages[0]);
      SnapshotIgnoresPaging(s, FoldPage(f, pages[0]), pages[1..]);
    }
  }

  /** From the beginning: the snapshot holds the rows of the stream as of the offset it returns. */
  lemma SnapshotIsAsOf(s: Stream, pages: seq<ReadResult>)
    requires AnswersFrom(s, TailFold(), pages)
    ensures var f := Drive(TailFold(), pages);
            f.rows == RowsAsOf(s, f.offset) && f.order == FoldMany(TailFold(), UpTo(s, f.offset)).order
  {
    BeginningIsEmpty(s);
    assert UpTo(s, Beginning) == [];
    SnapshotIgnoresPaging(s, TailFold(), pages);
    FoldManyReplays(TailFold(), UpTo(s, Drive(TailFold(), pages).offset), map[]);
  }

  // ---- How far a stream is read -------------------------------------------------------------------

  /** Where the answer at `k` was asked for: at the last next offset before it. */
  function AskedAt(from: Offset, pages: seq<ReadResult>, k: nat): Offset
    requires k <= |pages|
  {
    if k == 0 then from
    else if pages[k - 1].nextOffset.Some? then pages[k - 1].nextOffset.value
    else AskedAt(from, pages, k - 1)
  }

  /** The answer says that there is no more for now, or ever, or leads nowhere. */
  predicate EndsReading(asked: Offset, r: ReadResult) {
    r.upToDate || r.closed || r.nextOffset.None? || r.nextOffset.value == asked
  }

  /** Of the answers there are, the first `k` are read: up to the first one that ends the reading. */
  ghost predicate ReadUpTo(from: Offset, pages: seq<ReadResult>, k: nat) {
    && k <= |pages|
    && (forall j: nat | j + 1 < k :: !EndsReading(AskedAt(from, pages, j), pages[j]))
    && (k < |pages| ==> k > 0 && EndsReading(AskedAt(from, pages, k - 1), pages[k - 1]))
  }

  function EnvelopesOf(pages: seq<ReadResult>): seq<Envelope> {
    if pages == [] then [] else pages[0].envelopes + EnvelopesOf(pages[1..])
  }

  lemma {:induction false} AskedAtTail(from: Offset, pages: seq<ReadResult>, k: nat)
    requires 0 < k <= |pages|
    ensures AskedAt(from, pages, k) == AskedAt(AskedAt(from, pages, 1), pages[1..], k - 1)
  {
    if k > 1 {
      assert pages[1..][k - 2] == pages[k - 1];
      if pages[k - 1].nextOffset.None? {
        AskedAtTail(from, pages, k - 1);
      }
    }
  }

  lemma ReadOnePage(from: Offset, pages: seq<ReadResult>)
    requires pages != [] && EndsReading(from, pages[0])
    ensures ReadUpTo(from, pages, 1) && EnvelopesOf(pages[..1]) == pages[0].envelopes
  {
    assert pages[..1][1..] == [];
    assert EnvelopesOf([]) == [];
  }

  lemma ReadOneMore(from: Offset, pages: seq<ReadResult>, k: nat)
    requires pages != [] && !EndsReading(from, pages[0]) && ReadUpTo(AskedAt(from, pages, 1), pages[1..], k)
    requires k > 0 || |pages| == 1
    ensures ReadUpTo(from, pages, k + 1)
    ensures AskedAt(from, pages, k + 1) == AskedAt(AskedAt(from, pages, 1), pages[1..], k)
    ensures k > 0 ==> AskedAt(from, pages, k) == AskedAt(AskedAt(from, pages, 1), pages[1..], k - 1)
    ensures EnvelopesOf(pages[..k + 1]) == pages[0].envelopes + EnvelopesOf(pages[1..][..k])
  {
    forall j: nat | 0 < j < k + 1
      ensures AskedAt(from, pages, j) == AskedAt(AskedAt(from, pages, 1), pages[1..], j - 1)
    {
      AskedAtTail(from, pages, j);
    }
    AskedAtTail(from, pages, k + 1);
    forall j: nat | j + 1 < k + 1
      ensures !EndsReading(AskedAt(from, pages, j), pages[j])
    {
      if j > 0 {
        assert pages[j] == pages[1..][j - 1];
      }
    }
    assert pages[..k + 1][1..] == pages[1..][..k];
  }

  /** The snapshot fold folds the envelopes of exactly the answers up to the first one that ends the
      reading, stands at the last next offset among them, and is done exactly if there is such an answer. */
  lemma {:induction false} SnapshotReadsOn(f: Fold, pages: seq<ReadResult>) returns (k: nat)
    requires f.until.None? && !f.done
    ensures ReadUpTo(f.offset, pages, k)
    ensures Drive(f, pages).offset == AskedAt(f.offset, pages, k)
    ensures Drive(f, pages).done <==> k > 0 && EndsReading(AskedAt(f.offset, pages, k - 1), pages[k - 1])
    ensures SameCore(Drive(f, pages), FoldMany(f, EnvelopesOf(pages[..k])))
    decreases |pages|
  {
    if pages == [] {
      k := 0;
    } else {
      var r := pages[0];
      var g := FoldPage(f, r);
      assert r.envelopes[..|r.envelopes|] == r.envelopes;
      FoldManyCore(f, f, r.envelopes);
      if g.done {
        k := 1;
        ReadOnePage(f.offset, pages);
        FoldManyCore(g, FoldMany(f, r.envelopes), []);
      } else {
        var m := SnapshotReadsOn(g, pages[1..]);
        k := m + 1;
        ReadOneMore(f.offset, pages, m);
        FoldManyConcat(f, r.envelopes, EnvelopesOf(pages[1..][..m]));
        FoldManyCore(g, FoldMany(f, r.envelopes), EnvelopesOf(pages[1..][..m]));
      }
    }
  }

  // ---- The key set as of an offset ----------------------------------------------------------------

  /** No stamp is false: an entry that has one carries its own position. */
  ghost predicate Truthful(s: Stream) {
    forall i | 0 <= i < |s| && s[i].env.stamp.Some? :: s[i].env.stamp.value == At(s[i].pos)
  }

  /** The fold can see where the target is: nothing follows it, or what follows it first is stamped. */
  ghost predicate StopsAt(s: Stream, target: Offset) {
    CountTo(s, target) == |s| || s[CountTo(s, target)].env.stamp.Some?
  }

  /** How many entries come before the first one stamped past the target; all, if there is none. */
  ghost function FoldCut(s: Stream, target: Offset): (n: nat)
    ensures n <= |s|
  {
    Admitted(Some(target), Envelopes(s))
  }

  /** How far the pages that were folded, wholly or in part, reach. */
  function Reached(f: Fold, pages: seq<ReadResult>): Offset
    decreases |pages|
  {
    if f.done || pages == [] then f.offset
    else
      var g := FoldPage(f, pages[0]);
      if g.done && pages[0].nextOffset.Some? then pages[0].nextOffset.value else Reached(g, pages[1..])
  }

  function Min(a: nat, b: nat): nat {
    if a < b then a else b
  }

  lemma {:induction false} AdmittedIs(until: Option<Offset>, envs: seq<Envelope>, m: nat)
    requires m <= |envs| && forall i | 0 <= i < m :: !PastTarget(until, envs[i])
    requires m < |envs| ==> PastTarget(until, envs[m])
    ensures Admitted(until, envs) == m
    decreases m
  {
    if m > 0 {
      assert !PastTarget(until, envs[0]);
      AdmittedIs(until, envs[1..], m - 1);
    }
  }

  lemma CutAt(s: Stream, target: Offset, k: nat)
    requires k < |s| && k <= FoldCut(s, target)
    ensures PastTarget(Some(target), s[k].env) <==> k == FoldCut(s, target)
  {
    assert Envelopes(s)[k] == s[k].env;
  }

  lemma PageEntry(s: Stream, a: nat, b: nat, i: nat)
    requires a + i < b <= |s|
    ensures |Envelopes(s[a..b])| == b - a && Envelopes(s[a..b])[i] == s[a + i].env
  {
    assert s[a..b][i] == s[a + i];
  }

  lemma PagePast(s: Stream, a: nat, b: nat, target: Offset, i: nat)
    requires a + i < b <= |s| && a + i <= FoldCut(s, target)
    ensures PastTarget(Some(target), Envelopes(s[a..b])[i]) <==> a + i == FoldCut(s, target)
  {
    PageEntry(s, a, b, i);
    CutAt(s, target, a + i);
  }

  /** Where a page is cut: where the stream is. */
  lemma PageCut(s: Stream, a: nat, b: nat, target: Offset)
    requires a <= b <= |s| && a <= FoldCut(s, target)
    ensures Admitted(Some(target), Envelopes(s[a..b])) == Min(b, FoldCut(s, target)) - a
  {
    var page, m := Envelopes(s[a..b]), Min(b, FoldCut(s, target)) - a;
    forall i | 0 <= i < m ensures !PastTarget(Some(target), page[i]) {
      PagePast(s, a, b, target, i);
    }
    if a + m < b {
      PagePast(s, a, b, target, m);
    }
    AdmittedIs(Some(target), page, m);
  }

  lemma EnvelopesCut(s: Stream, a: nat, b: nat, n: nat)
    requires a + n <= b <= |s|
    ensures Envelopes(s[..a]) + Envelopes(s[a..b])[..n] == Envelopes(s[..a + n])
  {
  }

  /** The keys of the first `n` entries. */
  function KeysOf(s: Stream, n: nat): set<string>
    requires n <= |s|
  {
    Replay(map[], Envelopes(s[..n])).Keys
  }

  /** One page of the key-set fold. */
  lemma KeyFoldPage(s: Stream, f: Fold, r: ReadResult, target: Offset)
    requires Serves(s, f.offset, r)
    requires f.until == Some(target) && f.keysOnly && !f.done
    requires f.rows.Keys == KeysOf(s, CountTo(s, f.offset)) && CountTo(s, f.offset) <= FoldCut(s, target)
    ensures var g := FoldPage(f, r); var b := CountTo(s, r.nextOffset.value);
            && g.until == f.until && g.keysOnly
            && g.rows.Keys == KeysOf(s, Min(FoldCut(s, target), b))
            && (b > FoldCut(s, target) ==> g.done)
            && (b <= FoldCut(s, target) ==> g.offset == r.nextOffset.value
                                            && (g.done <==> r.upToDate || r.closed || r.nextOffset.value == f.offset))
  {
    var a, b := CountTo(s, f.offset), CountTo(s, r.nextOffset.value);
    PageCut(s, a, b, target);
    var n := Admitted(Some(target), r.envelopes);
    var folded := r.envelopes[..n];
    FoldManyCore(f, f, folded);
    FoldManyReplays(f, folded, Replay(map[], Envelopes(s[..a])));
    ReplayConcat(map[], Envelopes(s[..a]), folded);
    EnvelopesCut(s, a, b, n);
  }

  /** The key-set fold, for every split of the stream into pages: it has folded exactly the entries the pages
      reach, up to the first one stamped past the target. */
  lemma {:induction false} KeyFoldIsCut(s: Stream, f: Fold, pages: seq<ReadResult>, target: Offset)
    requires AnswersFrom(s, f, pages) && f.until == Some(target) && f.keysOnly && !f.done
    requires f.rows.Keys == KeysOf(s, CountTo(s, f.offset)) && CountTo(s, f.offset) <= FoldCut(s, target)
    ensures Drive(f, pages).rows.Keys == KeysOf(s, Min(FoldCut(s, target), CountTo(s, Reached(f, pages))))
    decreases |pages|
  {
    if pages != [] {
      KeyFoldPage(s, f, pages[0], target);
      if !FoldPage(f, pages[0]).done {
        KeyFoldIsCut(s, FoldPage(f, pages[0]), pages[1..], target);
      }
    }
  }

  lemma KeyFoldStarts(s: Stream, target: Offset)
    ensures var f := KeyFold(target); f.rows.Keys == KeysOf(s, CountTo(s, f.offset)) && CountTo(s, f.offset) == 0
  {
    BeginningIsEmpty(s);
    assert Envelopes(s[..0]) == [];
  }

  /** The cut is never before the target, and at the target exactly if the fold can see where that is. */
  lemma KeyFoldStopsIff(s: Stream, target: Offset)
    requires Ordered(s) && Truthful(s)
    ensures CountTo(s, target) <= FoldCut(s, target)
    ensures FoldCut(s, target) == CountTo(s, target) <==> StopsAt(s, target)
  {
    var t, n := CountTo(s, target), FoldCut(s, target);
    CountToBounds(s, target);
    if n < |s| {
      assert PastTarget(Some(target), Envelopes(s)[n]);
    }
    if n > t {
      assert !PastTarget(Some(target), Envelopes(s)[t]);
    }
  }

  lemma CountToEntry(s: Stream, i: nat)
    requires Ordered(s) && i < |s|
    ensures CountTo(s, At(s[i].pos)) == i + 1
  {
    CountToBounds(s, At(s[i].pos));
    assert i + 1 < |s| ==> OffsetAfter(At(s[i + 1].pos), At(s[i].pos));
  }

  /** Each entry is the first one after some offset. */
  lemma OffsetBefore(s: Stream, i: nat) returns (target: Offset)
    requires Ordered(s) && i < |s|
    ensures CountTo(s, target) == i
  {
    if i == 0 {
      BeginningIsEmpty(s);
      target := Beginning;
    } else {
      CountToEntry(s, i - 1);
      target := At(s[i - 1].pos);
    }
  }

  /** Every target is met exactly if every entry is stamped. */
  lemma AllTargetsAreMetIff(s: Stream)
    requires Ordered(s) && Truthful(s)
    ensures (forall target :: FoldCut(s, target) == CountTo(s, target)) <==> forall i | 0 <= i < |s| :: s[i].env.stamp.Some?
  {
    forall target ensures FoldCut(s, target) == CountTo(s, target) <==> StopsAt(s, target) {
      KeyFoldStopsIff(s, target);
    }
    if forall target :: FoldCut(s, target) == CountTo(s, target) {
      forall i | 0 <= i < |s| ensures s[i].env.stamp.Some? {
        var target := OffsetBefore(s, i);
        assert StopsAt(s, target);
      }
    }
  }

  /** As `AnswersFrom`, and a page that ends the fold by itself has reached the target: the target was
      handed out earlier, so the stream's end is not before it. */
  ghost predicate AnswersFor(s: Stream, f: Fold, pages: seq<ReadResult>, target: Offset)
    decreases |pages|
  {
    f.done || pages == [] || (
      var r := pages[0];
      && Serves(s, f.offset, r)
      && (r.upToDate || r.closed || r.nextOffset.value == f.offset ==> CountTo(s, target) <= CountTo(s, r.nextOffset.value))
      && AnswersFor(s, FoldPage(f, r), pages[1..], target))
  }

  lemma {:induction false} DoneReachesTarget(s: Stream, f: Fold, pages: seq<ReadResult>, target: Offset)
    requires AnswersFor(s, f, pages, target) && f.until == Some(target) && f.keysOnly && !f.done
    requires f.rows.Keys == KeysOf(s, CountTo(s, f.offset)) && CountTo(s, f.offset) <= FoldCut(s, target)
    requires CountTo(s, target) <= FoldCut(s, target)
    ensures AnswersFrom(s, f, pages)
    ensures Drive(f, pages).done ==> CountTo(s, target) <= CountTo(s, Reached(f, pages))
    decreases |pages|
  {
    if pages != [] {
      KeyFoldPage(s, f, pages[0], target);
      if !FoldPage(f, pages[0]).done {
        DoneReachesTarget(s, FoldPage(f, pages[0]), pages[1..], target);
      }
    }
  }

  /** The finished key-set fold, for every split into pages: if the fold can see where the target is, it
      ends with exactly the keys of the stream up to the target; if the pages were read to the end of the
      stream, it ends with the keys up to the cut, wherever that is. */
  lemma KeyFoldIsAsOf(s: Stream, pages: seq<ReadResult>, target: Offset)
    requires Ordered(s) && Truthful(s) && AnswersFor(s, KeyFold(target), pages, target)
    requires Drive(KeyFold(target), pages).done
    ensures StopsAt(s, target) ==> Drive(KeyFold(target), pages).rows.Keys == RowsAsOf(s, target).Keys
    ensures CountTo(s, Reached(KeyFold(target), pages)) == |s| ==>
              Drive(KeyFold(target), pages).rows.Keys == KeysOf(s, FoldCut(s, target))
  {
    KeyFoldStarts(s, target);
    KeyFoldStopsIff(s, target);
    DoneReachesTarget(s, KeyFold(target), pages, target);
    KeyFoldIsCut(s, KeyFold(target), pages, target);
  }

  /** Without stamps: a key upserted, then deleted. Its key set as of the upsert comes out empty. */
  lemma UnstampedFoldOverruns(put: Envelope, drop: Envelope)
    requires !put.isDelete && put.value.Some? && drop.isDelete && drop.key == put.key
    requires put.stamp.None? && drop.stamp.None?
    ensures var s, page := [Entry(1, put), Entry(2, drop)], ReadResult([put, drop], Some(At(2)), true, false);
            && Ordered(s) && Truthful(s) && AnswersFor(s, KeyFold(At(1)), [page], At(1))
            && Drive(KeyFold(At(1)), [page]).done && Drive(KeyFold(At(1)), [page]).rows.Keys == {}
            && RowsAsOf(s, At(1)) == map[put.key := put.value.value] && RowsAsOf(s, At(2)) == map[]
  {
    var s, page := [Entry(1, put), Entry(2, drop)], ReadResult([put, drop], Some(At(2)), true, false);
    TwoEntries(put, drop);
    KeyFoldIsAsOf(s, [page], At(1));
    AdmittedIs(Some(At(1)), Envelopes(s), 2);
    assert s[..2] == s && Envelopes(s) == [put, drop];
  }

  /** That stream's offsets and rows. */
  lemma TwoEntries(put: Envelope, drop: Envelope)
    requires !put.isDelete && put.value.Some? && drop.isDelete && drop.key == put.key
    ensures var s, page := [Entry(1, put), Entry(2, drop)], ReadResult([put, drop], Some(At(2)), true, false);
            && CountTo(s, Beginning) == 0 && CountTo(s, At(1)) == 1 && CountTo(s, At(2)) == 2
            && RowsAsOf(s, At(1)) == map[put.key := put.value.value] && RowsAsOf(s, At(2)) == map[]
            && Serves(s, Beginning, page)
  {
    var s := [Entry(1, put), Entry(2, drop)];
    BeginningIsEmpty(s);
    assert s[..|s| - 1] == [Entry(1, put)];
    assert CountTo(s, At(1)) == CountTo([Entry(1, put)], At(1)) == 1;
    var rows: Rows := map[];
    assert Envelopes(s[..1]) == [put] && Envelopes(s[..2]) == [put, drop] && [put][1..] == [] && [drop][1..] == [];
    assert [put, drop][1..] == [drop];
    assert Replay(rows, [put]) == Replay(Step(rows, put), []) == Step(rows, put);
    assert Replay(rows, [put, drop]) == Replay(Step(rows, put), [drop]) == Step(Step(rows, put), drop);
    assert s[0..2] == s[..2];
  }

  // ---- The snapshot's row order -------------------------------------------------------------------

  /** The keys a snapshot emits: the order list, with the keys that are not live left out. */
  function OrderedKeys(order: seq<string>, rows: Rows): seq<string> {
    if order == [] then []
    else if order[0] in rows then [order[0]] + OrderedKeys(order[1..], rows)
    else OrderedKeys(order[1..], rows)
  }

  /** How often the key went from absent to present. */
  function Insertions(rows: Rows, envs: seq<Envelope>, k: string): nat
    decreases |envs|
  {
    if envs == [] then 0
    else
      var e := envs[0];
      (if e.key == k && !e.isDelete && e.value.Some? && k !in rows then 1 else 0)
      + Insertions(Step(rows, e), envs[1..], k)
  }

  lemma {:induction false} OrderCountsInsertions(f: Fold, envs: seq<Envelope>, k: string)
    requires !f.keysOnly
    ensures multiset(FoldMany(f, envs).order)[k] == multiset(f.order)[k] + Insertions(f.rows, envs, k)
    decreases |envs|
  {
    if envs != [] {
      OrderCountsInsertions(FoldOne(f, envs[0]), envs[1..], k);
    }
  }

  lemma {:induction false} OrderedKeysCount(order: seq<string>, rows: Rows, k: string)
    ensures multiset(OrderedKeys(order, rows))[k] == if k in rows then multiset(order)[k] else 0
  {
    if order != [] {
      assert order == [order[0]] + order[1..];
      OrderedKeysCount(order[1..], rows, k);
    }
  }

  lemma {:induction false} LiveKeysWereInserted(rows: Rows, envs: seq<Envelope>, k: string)
    ensures k in Replay(rows, envs) && k !in rows ==> Insertions(rows, envs, k) > 0
    decreases |envs|
  {
    if envs != [] {
      LiveKeysWereInserted(Step(rows, envs[0]), envs[1..], k);
    }
  }

  /** A snapshot emits each live key as often as the key was inserted into the stream: once, unless it
      was deleted and upserted again; and it emits nothing else. */
  lemma SnapshotEmitsPerInsertion(envs: seq<Envelope>, k: string)
    ensures var f := FoldMany(TailFold(), envs);
            multiset(OrderedKeys(f.order, f.rows))[k] == if k in f.rows then Insertions(map[], envs, k) else 0
    ensures k in FoldMany(TailFold(), envs).rows ==> Insertions(map[], envs, k) >= 1
  {
    var f := FoldMany(TailFold(), envs);
    OrderCountsInsertions(TailFold(), envs, k);
    OrderedKeysCount(f.order, f.rows, k);
    FoldManyReplays(TailFold(), envs, map[]);
    LiveKeysWereInserted(map[], envs, k);
  }

  /** The envelope at `i` takes its key from absent to present. */
  predicate Inserts(envs: seq<Envelope>, i: nat) {
    i < |envs| && !envs[i].isDelete && envs[i].value.Some? && envs[i].key !in Replay(map[], envs[..i])
  }

  lemma InsertsInPrefix(envs: seq<Envelope>, n: nat, i: nat)
    requires n <= |envs|
    ensures Inserts(envs[..n], i) <==> i < n && Inserts(envs, i)
  {
    if i < n {
      assert envs[..n][..i] == envs[..i];
    }
  }

  lemma FoldLast(envs: seq<Envelope>)
    requires envs != []
    ensures var last := |envs| - 1;
            FoldMany(TailFold(), envs).order == FoldMany(TailFold(), envs[..last]).order
              + if Inserts(envs, last) then [envs[last].key] else []
  {
    var last := |envs| - 1;
    assert envs == envs[..last] + [envs[last]];
    FoldManyConcat(TailFold(), envs[..last], [envs[last]]);
    FoldManyReplays(TailFold(), envs[..last], map[]);
    assert [envs[last]][1..] == [];
  }

  /** The order list names the keys of the inserting envelopes, in the order of the stream. */
  lemma {:induction false} OrderIsInsertionOrder(envs: seq<Envelope>) returns (at: seq<nat>)
    ensures Ascending(at) && forall i: nat :: i in at <==> Inserts(envs, i)
    ensures var order := FoldMany(TailFold(), envs).order;
            |at| == |order| && forall j | 0 <= j < |at| :: at[j] < |envs| && order[j] == envs[at[j]].key
    decreases |envs|
  {
    at := [];
    if envs != [] {
      var last := |envs| - 1;
      at := OrderIsInsertionOrder(envs[..last]);
      FoldLast(envs);
      forall i: nat
        ensures i in at <==> i < last && Inserts(envs, i)
      {
        InsertsInPrefix(envs, last, i);
      }
      forall j | 0 <= j < |at|
        ensures at[j] < last
      {
        assert at[j] in at;
      }
      at := at + if Inserts(envs, last) then [last] else [];
    }
  }

  /** What a snapshot emits: the keys of the inserting envelopes in the order of the stream, but for those
      whose key is not live at the end. */
  lemma SnapshotInInsertionOrder(envs: seq<Envelope>) returns (at: seq<nat>)
    ensures var f := FoldMany(TailFold(), envs);
            && Ascending(at) && (forall i: nat :: i in at <==> Inserts(envs, i) && envs[i].key in f.rows)
            && |at| == |OrderedKeys(f.order, f.rows)|
            && forall j | 0 <= j < |at| :: at[j] < |envs| && OrderedKeys(f.order, f.rows)[j] == envs[at[j]].key
  {
    var all := OrderIsInsertionOrder(envs);
    at := LivePositions(envs, all, FoldMany(TailFold(), envs).order, FoldMany(TailFold(), envs).rows);
  }

  lemma {:induction false} LivePositions(envs: seq<Envelope>, all: seq<nat>, order: seq<string>, rows: Rows)
      returns (at: seq<nat>)
    requires Ascending(all) && |all| == |order|
    requires forall j | 0 <= j < |all| :: all[j] < |envs| && order[j] == envs[all[j]].key
    ensures Ascending(at) && forall i: nat :: i in at <==> i in all && envs[i].key in rows
    ensures |at| == |OrderedKeys(order, rows)|
    ensures forall j | 0 <= j < |at| :: at[j] < |envs| && OrderedKeys(order, rows)[j] == envs[at[j]].key
    decreases |all|
  {
    at := [];
    if all != [] {
      at := LivePositions(envs, all[1..], order[1..], rows);
      forall j | 0 <= j < |at|
        ensures all[0] < at[j]
      {
        assert at[j] in at;
      }
      assert forall i :: i in all <==> i == all[0] || i in all[1..];
      if order[0] in rows {
        at := [all[0]] + at;
      }
    }
  }

  // ---- The second implementation of the fold ------------------------------------------------------

  predicate PageShouldContinue(offset: Offset, next: Option<Offset>, upToDate: bool, closed: bool) {
    !upToDate && !closed && next.Some? && next.value != offset
  }

  /** The rows preview's loop over the server's answers. */
  function RowsLoop(rows: Rows, offset: Offset, pages: seq<ReadResult>): (Rows, Offset)
    decreases |pages|
  {
    if pages == [] then (rows, offset)
    else
      var r := pages[0];
      var rows' := Replay(rows, r.envelopes);
      var offset' := if r.nextOffset.Some? then r.nextOffset.value else offset;
      if PageShouldContinue(offset, r.nextOffset, r.upToDate, r.closed)
      then RowsLoop(rows', offset', pages[1..]) else (rows', offset')
  }

  method ShapeRows(pages: seq<ReadResult>) returns (rows: Rows, offset: Offset)
    ensures (rows, offset) == RowsLoop(map[], Beginning, pages)
  {
    rows, offset := map[], Beginning;
    var i := 0;
    assert pages[0..] == pages;
    while i < |pages|
      invariant i <= |pages|
      invariant RowsLoop(rows, offset, pages[i..]) == RowsLoop(map[], Beginning, pages)
    {
      var r := pages[i];
      assert pages[i..][0] == r && pages[i..][1..] == pages[i + 1..];
      ghost var before := rows;
      var j := 0;
      assert r.envelopes[0..] == r.envelopes;
      while j < |r.envelopes|
        invariant j <= |r.envelopes|
        invariant Replay(rows, r.envelopes[j..]) == Replay(before, r.envelopes)
      {
        var e := r.envelopes[j];
        assert r.envelopes[j..][0] == e && r.envelopes[j..][1..] == r.envelopes[j + 1..];
        if e.isDelete {
          rows := rows - {e.key};
        } else if e.value.Some? {
          rows := rows[e.key := e.value.value];
        }
        j := j + 1;
      }
      var previous := offset;
      if r.nextOffset.Some? {
        offset := r.nextOffset.value;
      }
      if !PageShouldContinue(previous, r.nextOffset, r.upToDate, r.closed) {
        return;
      }
      i := i + 1;
    }
  }

  /** The preview stops on the same page as the snapshot fold, with the same rows and offset. */
  lemma {:induction false} RowsLoopIsFold(f: Fold, pages: seq<ReadResult>)
    requires f.until.None? && !f.keysOnly && !f.done
    ensures RowsLoop(f.rows, f.offset, pages) == (Drive(f, pages).rows, Drive(f, pages).offset)
    decreases |pages|
  {
    if pages != [] {
      var r := pages[0];
      assert r.envelopes[..|r.envelopes|] == r.envelopes;
      FoldManyReplays(f, r.envelopes, f.rows);
      FoldManyCore(f, f, r.envelopes);
      if !FoldPage(f, r).done {
        RowsLoopIsFold(FoldPage(f, r), pages[1..]);
      }
    }
  }
}
