/**
 How a changed row finds the shapes it belongs to without visiting all of them: equality templates
 (key lookup), necessary conjuncts (leaf lookup) and the fallback list.
 */
module Routing {
  import opened Basics
  import opened Values
  import opened Predicate

  type Pair = (nat, Value)

  // ---- Equality templates -------------------------------------------------------------------------

  predicate IsEqLeaf(p: Pred) {
    p.Cmp? && p.op == Eq && !p.value.Null?
  }

  /** The equality leaves of a pure conjunction of them; `None` for any other predicate. */
  function EqLeaves(p: Pred): Option<seq<Pair>>
    decreases p, 1
  {
    if IsEqLeaf(p) then Some([(p.col, p.value)])
    else if p.And? then EqLeavesAll(p.ps)
    else None
  }

  function EqLeavesAll(ps: seq<Pred>): Option<seq<Pair>>
    decreases ps, 0
  {
    if ps == [] then Some([])
    else match EqLeaves(ps[0])
      case None => None
      case Some(first) =>
        match EqLeavesAll(ps[1..])
        case None => None
        case Some(rest) => Some(first + rest)
  }

  function InsertByCol(x: Pair, s: seq<Pair>): (r: seq<Pair>)
    ensures multiset(r) == multiset(s) + multiset{x}
  {
    if s == [] then [x]
    else if x.0 <= s[0].0 then [x] + s
    else
      assert s == [s[0]] + s[1..];
      [s[0]] + InsertByCol(x, s[1..])
  }

  /** Stable sort by column position. */
  function SortByCol(s: seq<Pair>): (r: seq<Pair>)
    ensures multiset(r) == multiset(s)
  {
    if s == [] then []
    else
      assert s == [s[0]] + s[1..];
      InsertByCol(s[0], SortByCol(s[1..]))
  }

  predicate HasRepeatedNeighbour(s: seq<Pair>) {
    exists i, j | 0 <= i < |s| && i < j < |s| && j == i + 1 :: s[i].0 == s[j].0
  }

  /** The template: the pairs sorted by column, if there are any and no column repeats. */
  function Template(p: Pred): Option<seq<Pair>> {
    match EqLeaves(p)
    case None => None
    case Some(leaves) =>
      if leaves == [] || HasRepeatedNeighbour(SortByCol(leaves)) then None else Some(SortByCol(leaves))
  }

  method CollectEq(p: Pred, acc: seq<Pair>) returns (ok: bool, out: seq<Pair>)
    ensures ok <==> EqLeaves(p).Some?
    ensures ok ==> out == acc + EqLeaves(p).value
    decreases p
  {
    if p.Cmp? && p.op == Eq && !p.value.Null? {
      return true, acc + [(p.col, p.value)];
    }
    if !p.And? {
      return false, acc;
    }
    var i := 0;
    out := acc;
    assert p.ps[0..] == p.ps;
    while i < |p.ps|
      invariant i <= |p.ps|
      invariant EqLeavesAll(p.ps).Some? <==> EqLeavesAll(p.ps[i..]).Some?
      invariant EqLeavesAll(p.ps).Some? ==> out + EqLeavesAll(p.ps[i..]).value == acc + EqLeavesAll(p.ps).value
    {
      assert p.ps[i..][0] == p.ps[i] && p.ps[i..][1..] == p.ps[i + 1..];
      ok, out := CollectEq(p.ps[i], out);
      if !ok {
        return;
      }
      i := i + 1;
    }
    ok := true;
  }

  method EqualityTemplate(p: Pred) returns (t: Option<seq<Pair>>)
    ensures t == Template(p)
  {
    var ok, acc := CollectEq(p, []);
    if !ok || |acc| == 0 {
      return None;
    }
    assert acc == EqLeaves(p).value;
    var sorted := SortByCol(acc);
    var repeated := RepeatsColumn(sorted);
    t := if repeated then None else Some(sorted);
  }

  method RepeatsColumn(s: seq<Pair>) returns (repeated: bool)
    ensures repeated <==> HasRepeatedNeighbour(s)
  {
    var i := 1;
    while i < |s|
      invariant 1 <= i
      invariant forall k, l | 0 <= k < |s| && k < l < |s| && l == k + 1 && l < i :: s[k].0 != s[l].0
    {
      if s[i - 1].0 == s[i].0 {
        return true;
      }
      i := i + 1;
    }
    repeated := false;
  }

  predicate Holds(row: Row, leaves: seq<Pair>) {
    forall x | x in leaves :: Cell(row, x.0) == x.1
  }

  lemma {:induction false} EqLeavesMeaning(p: Pred, row: Row, ev: NodeSets)
    requires EqLeaves(p).Some?
    ensures MatchesRow(p, row, ev) <==> Holds(row, EqLeaves(p).value)
    ensures forall x | x in EqLeaves(p).value :: !x.1.Null?
    decreases p, 1
  {
    if p.And? {
      EqLeavesAllMeaning(p.ps, row, ev);
      EvalAndMeaning(p.ps, row, ev, True);
    } else {
      assert (p.col, p.value) in EqLeaves(p).value;
    }
  }

  lemma {:induction false} EqLeavesAllMeaning(ps: seq<Pred>, row: Row, ev: NodeSets)
    requires EqLeavesAll(ps).Some?
    ensures (forall q | q in ps :: MatchesRow(q, row, ev)) <==> Holds(row, EqLeavesAll(ps).value)
    ensures forall x | x in EqLeavesAll(ps).value :: !x.1.Null?
    decreases ps, 0
  {
    if ps != [] {
      EqLeavesMeaning(ps[0], row, ev);
      EqLeavesAllMeaning(ps[1..], row, ev);
      assert forall q | q in ps :: q == ps[0] || q in ps[1..];
      assert ps[0] in ps && forall q | q in ps[1..] :: q in ps;
      var first, rest := EqLeaves(ps[0]).value, EqLeavesAll(ps[1..]).value;
      assert forall x | x in first + rest :: x in first || x in rest;
      assert forall x | x in first :: x in first + rest;
      assert forall x | x in rest :: x in first + rest;
    }
  }

  function Cols(t: seq<Pair>): (cols: seq<nat>)
    ensures |cols| == |t| && forall i | 0 <= i < |t| :: cols[i] == t[i].0
  {
    seq(|t|, i requires 0 <= i < |t| => t[i].0)
  }

  function Vals(t: seq<Pair>): (vals: seq<Value>)
    ensures |vals| == |t| && forall i | 0 <= i < |t| :: vals[i] == t[i].1
  {
    seq(|t|, i requires 0 <= i < |t| => t[i].1)
  }

  lemma {:induction false} InsertByColSorted(x: Pair, s: seq<Pair>)
    requires forall i, j | 0 <= i < j < |s| :: s[i].0 <= s[j].0
    ensures forall i, j | 0 <= i < j < |InsertByCol(x, s)| :: InsertByCol(x, s)[i].0 <= InsertByCol(x, s)[j].0
  {
    if s != [] && x.0 > s[0].0 {
      InsertByColSorted(x, s[1..]);
      var r := InsertByCol(x, s[1..]);
      forall y | y in r
        ensures s[0].0 <= y.0
      {
        assert y in multiset(r);
      }
    }
  }

  lemma {:induction false} SortByColSorted(s: seq<Pair>)
    ensures forall i, j | 0 <= i < j < |SortByCol(s)| :: SortByCol(s)[i].0 <= SortByCol(s)[j].0
  {
    if s != [] {
      SortByColSorted(s[1..]);
      InsertByColSorted(s[0], SortByCol(s[1..]));
    }
  }

  lemma {:induction false} NeighboursDifferAllDiffer(s: seq<Pair>, i: nat, j: nat)
    requires i < j < |s|
    requires forall i, j | 0 <= i < j < |s| :: s[i].0 <= s[j].0
    requires !HasRepeatedNeighbour(s)
    ensures s[i].0 < s[j].0
  {
    assert s[j - 1].0 != s[j].0;
  }

  /** Key routing is exact: a shape with a template matches a row exactly when the row's projection on
      the template's columns is the template's key. Columns strictly increase; no key holds a NULL. */
  lemma TemplateIsKey(p: Pred, row: Row, ev: NodeSets)
    requires Template(p).Some?
    ensures var t := Template(p).value;
            && (MatchesRow(p, row, ev) <==> Project(row, Cols(t)) == Vals(t))
            && t != []
            && (forall i, j | 0 <= i < j < |t| :: t[i].0 < t[j].0)
            && (forall x | x in t :: !x.1.Null?)
  {
    var leaves, t := EqLeaves(p).value, Template(p).value;
    EqLeavesMeaning(p, row, ev);
    SortByColSorted(leaves);
    forall i, j | 0 <= i < j < |t|
      ensures t[i].0 < t[j].0
    {
      NeighboursDifferAllDiffer(t, i, j);
    }
    SameMembers(t, leaves);
    ProjectIsKey(row, t);
    assert t != [] by {
      assert leaves[0] in leaves;
    }
  }

  lemma SameMembers(s: seq<Pair>, t: seq<Pair>)
    requires multiset(s) == multiset(t)
    ensures forall x :: x in s <==> x in t
  {
    forall x
      ensures x in s <==> x in t
    {
      assert x in s <==> x in multiset(s);
      assert x in t <==> x in multiset(t);
    }
  }

  lemma ProjectIsKey(row: Row, t: seq<Pair>)
    ensures Holds(row, t) <==> Project(row, Cols(t)) == Vals(t)
  {
    if Project(row, Cols(t)) == Vals(t) {
      forall x | x in t
        ensures Cell(row, x.0) == x.1
      {
        var i :| 0 <= i < |t| && t[i] == x;
        assert Project(row, Cols(t))[i] == Vals(t)[i];
      }
    }
    if Holds(row, t) {
      forall i | 0 <= i < |t|
        ensures Project(row, Cols(t))[i] == Vals(t)[i]
      {
        assert t[i] in t;
      }
    }
  }

  // ---- Which predicates have a template -----------------------------------------------------------

  /** The conjuncts of nested ANDs, each as often as it is written. */
  function Conjuncts(p: Pred): seq<Pred>
    decreases p, 1
  {
    if p.And? then ConjunctsAll(p.ps) else [p]
  }

  function ConjunctsAll(ps: seq<Pred>): seq<Pred>
    decreases ps, 0
  {
    if ps == [] then [] else Conjuncts(ps[0]) + ConjunctsAll(ps[1..])
  }

  /** `leaves` holds the column and the value of each of the comparisons `cs`, in their order. */
  predicate AreLeaves(leaves: seq<Pair>, cs: seq<Pred>) {
    && |leaves| == |cs|
    && forall i | 0 <= i < |cs| :: cs[i].Cmp? && leaves[i] == (cs[i].col, cs[i].value)
  }

  predicate AllEqualities(cs: seq<Pred>) {
    forall i | 0 <= i < |cs| :: cs[i].Cmp? && cs[i].op == Eq && !cs[i].value.Null?
  }

  lemma {:induction false} EqLeavesIff(p: Pred)
    ensures EqLeaves(p).Some? <==> AllEqualities(Conjuncts(p))
    ensures EqLeaves(p).Some? ==> AreLeaves(EqLeaves(p).value, Conjuncts(p))
    decreases p, 1
  {
    if p.And? {
      EqLeavesAllIff(p.ps);
    } else {
      assert Conjuncts(p)[0] == p;
    }
  }

  lemma {:induction false} EqLeavesAllIff(ps: seq<Pred>)
    ensures EqLeavesAll(ps).Some? <==> AllEqualities(ConjunctsAll(ps))
    ensures EqLeavesAll(ps).Some? ==> AreLeaves(EqLeavesAll(ps).value, ConjunctsAll(ps))
    decreases ps, 0
  {
    if ps != [] {
      EqLeavesIff(ps[0]);
      EqLeavesAllIff(ps[1..]);
      var first, rest := Conjuncts(ps[0]), ConjunctsAll(ps[1..]);
      assert forall i | 0 <= i < |first| :: (first + rest)[i] == first[i];
      assert forall i | 0 <= i < |rest| :: (first + rest)[|first| + i] == rest[i];
    }
  }

  lemma {:induction false} InsertByColCols(x: Pair, s: seq<Pair>)
    ensures multiset(Cols(InsertByCol(x, s))) == multiset(Cols(s)) + multiset{x.0}
  {
    if s == [] || x.0 <= s[0].0 {
      assert Cols([x] + s) == [x.0] + Cols(s);
    } else {
      InsertByColCols(x, s[1..]);
      assert Cols(InsertByCol(x, s)) == [s[0].0] + Cols(InsertByCol(x, s[1..]));
      assert Cols(s) == [s[0].0] + Cols(s[1..]);
    }
  }

  lemma {:induction false} SortByColCols(s: seq<Pair>)
    ensures multiset(Cols(SortByCol(s))) == multiset(Cols(s))
  {
    if s != [] {
      SortByColCols(s[1..]);
      InsertByColCols(s[0], SortByCol(s[1..]));
      assert Cols(s) == [s[0].0] + Cols(s[1..]);
    }
  }

  lemma DistinctWhenSorted(t: seq<Pair>)
    requires forall i, j | 0 <= i < j < |t| :: t[i].0 <= t[j].0
    ensures !HasRepeatedNeighbour(t) <==> Distinct(Cols(t))
  {
    if HasRepeatedNeighbour(t) {
      var i, j :| 0 <= i < |t| && i < j < |t| && j == i + 1 && t[i].0 == t[j].0;
      assert Cols(t)[i] == Cols(t)[j];
    } else {
      forall i, j | 0 <= i < j < |t|
        ensures Cols(t)[i] != Cols(t)[j]
      {
        NeighboursDifferAllDiffer(t, i, j);
      }
    }
  }

  lemma NoRepeatIff(s: seq<Pair>)
    ensures !HasRepeatedNeighbour(SortByCol(s)) <==> Distinct(Cols(s))
  {
    SortByColSorted(s);
    DistinctWhenSorted(SortByCol(s));
    SortByColCols(s);
    DistinctIff(Cols(s));
    DistinctIff(Cols(SortByCol(s)));
  }

  lemma DistinctLeaves(leaves: seq<Pair>, cs: seq<Pred>)
    requires AreLeaves(leaves, cs)
    ensures Distinct(Cols(leaves)) <==> forall i, j | 0 <= i < j < |cs| :: cs[i].col != cs[j].col
  {
    assert forall i | 0 <= i < |cs| :: Cols(leaves)[i] == cs[i].col;
  }

  lemma LeavesMember(leaves: seq<Pair>, cs: seq<Pred>, x: Pair)
    requires AreLeaves(leaves, cs) && AllEqualities(cs)
    ensures x in leaves <==> Cmp(x.0, Eq, x.1) in cs
  {
    if x in leaves {
      var i :| 0 <= i < |leaves| && leaves[i] == x;
      assert cs[i] == Cmp(x.0, Eq, x.1);
    }
    if Cmp(x.0, Eq, x.1) in cs {
      var i :| 0 <= i < |cs| && cs[i] == Cmp(x.0, Eq, x.1);
      assert leaves[i] == (x.0, x.1);
    }
  }

  /** A predicate has a template exactly if it is a conjunction of at least one equality, each with a
      value that is not NULL, no two on one column. */
  lemma TemplateExistsIff(p: Pred)
    ensures var cs := Conjuncts(p);
            Template(p).Some? <==>
            && cs != []
            && (forall i | 0 <= i < |cs| :: cs[i].Cmp? && cs[i].op == Eq && !cs[i].value.Null?)
            && (forall i, j | 0 <= i < j < |cs| :: cs[i].col != cs[j].col)
  {
    EqLeavesIff(p);
    if AllEqualities(Conjuncts(p)) {
      NoRepeatIff(EqLeaves(p).value);
      DistinctLeaves(EqLeaves(p).value, Conjuncts(p));
    }
  }

  /** The template holds the conjuncts' columns and values, and no others. */
  lemma TemplateHoldsConjuncts(p: Pred, x: Pair)
    requires Template(p).Some?
    ensures x in Template(p).value <==> Cmp(x.0, Eq, x.1) in Conjuncts(p)
  {
    EqLeavesIff(p);
    SameMembers(SortByCol(EqLeaves(p).value), EqLeaves(p).value);
    LeavesMember(EqLeaves(p).value, Conjuncts(p), x);
  }

  // ---- Necessary conjuncts ------------------------------------------------------------------------

  datatype AccessLeaf =
    | EqLeaf(col: nat, value: Value)
    | Lower(col: nat, value: Value, strict: bool)
    | Upper(col: nat, value: Value, strict: bool)

  function LeafOf(p: Pred): Option<AccessLeaf> {
    if !p.Cmp? || p.value.Null? then None
    else match p.op
      case Eq => Some(EqLeaf(p.col, p.value))
      case Gt => Some(Lower(p.col, p.value, true))
      case Gte => Some(Lower(p.col, p.value, false))
      case Lt => Some(Upper(p.col, p.value, true))
      case Lte => Some(Upper(p.col, p.value, false))
      case _ => None
  }

  predicate Better(best: Option<AccessLeaf>, leaf: AccessLeaf) {
    best.None? || (!best.value.EqLeaf? && leaf.EqLeaf?)
  }

  /** The walk over the AND chain, keeping the best leaf so far. */
  function Collect(p: Pred, best: Option<AccessLeaf>): Option<AccessLeaf>
    decreases p, 1
  {
    if p.And? then CollectAll(p.ps, best)
    else
      var l := LeafOf(p);
      if l.Some? && Better(best, l.value) then l else best
  }

  function CollectAll(ps: seq<Pred>, best: Option<AccessLeaf>): Option<AccessLeaf>
    decreases ps, 0
  {
    if ps == [] then best else CollectAll(ps[1..], Collect(ps[0], best))
  }

  method CollectLeaf(p: Pred, best: Option<AccessLeaf>) returns (out: Option<AccessLeaf>)
    ensures out == Collect(p, best)
    decreases p
  {
    out := best;
    if p.And? {
      var i := 0;
      assert p.ps[0..] == p.ps;
      while i < |p.ps|
        invariant i <= |p.ps|
        invariant CollectAll(p.ps[i..], out) == CollectAll(p.ps, best)
      {
        assert p.ps[i..][0] == p.ps[i] && p.ps[i..][1..] == p.ps[i + 1..];
        out := CollectLeaf(p.ps[i], out);
        i := i + 1;
      }
    } else {
      var l := LeafOf(p);
      if l.Some? && (best.None? || (!best.value.EqLeaf? && l.value.EqLeaf?)) {
        out := l;
      }
    }
  }

  method FindAccessLeaf(p: Pred) returns (leaf: Option<AccessLeaf>)
    ensures leaf == Collect(p, None)
  {
    leaf := CollectLeaf(p, None);
  }

  /** What an index lookup by this leaf tests on a row. */
  predicate LeafTrue(l: AccessLeaf, row: Row) {
    match l
    case EqLeaf(col, value) => !Cell(row, col).Null? && Cell(row, col) == value
    case Lower(col, value, strict) =>
      var c := Compare(Cell(row, col), value);
      c.Some? && (c.value.Greater? || (!strict && c.value.Equal?))
    case Upper(col, value, strict) =>
      var c := Compare(Cell(row, col), value);
      c.Some? && (c.value.Less? || (!strict && c.value.Equal?))
  }

  /** `q` is a conjunct of `p`: `p` itself, or a conjunct of one of the operands of its AND. */
  ghost predicate IsConjunct(q: Pred, p: Pred) {
    if p.And? then exists c | c in p.ps :: IsConjunct(q, c) else q == p
  }

  lemma {:induction false} ConjunctIsNecessary(q: Pred, p: Pred, row: Row, ev: NodeSets)
    requires IsConjunct(q, p) && MatchesRow(p, row, ev)
    ensures MatchesRow(q, row, ev)
    decreases p
  {
    if p.And? {
      EvalAndMeaning(p.ps, row, ev, True);
      var c :| c in p.ps && IsConjunct(q, c);
      ConjunctIsNecessary(q, c, row, ev);
    }
  }

  lemma {:induction false} CollectFindsConjunct(p: Pred, best: Option<AccessLeaf>)
    ensures Collect(p, best) == best || exists q :: IsConjunct(q, p) && LeafOf(q) == Collect(p, best)
    ensures best.Some? ==> Collect(p, best).Some?
    ensures best.Some? && best.value.EqLeaf? ==> Collect(p, best) == best
    ensures forall q | IsConjunct(q, p) && LeafOf(q).Some? ::
              Collect(p, best).Some? && (LeafOf(q).value.EqLeaf? ==> Collect(p, best).value.EqLeaf?)
    decreases p, 1
  {
    if p.And? {
      CollectAllFindsConjunct(p.ps, best);
    } else {
      assert IsConjunct(p, p);
    }
  }

  lemma {:induction false} CollectAllFindsConjunct(ps: seq<Pred>, best: Option<AccessLeaf>)
    ensures CollectAll(ps, best) == best || exists c, q :: c in ps && IsConjunct(q, c) && LeafOf(q) == CollectAll(ps, best)
    ensures best.Some? ==> CollectAll(ps, best).Some?
    ensures best.Some? && best.value.EqLeaf? ==> CollectAll(ps, best) == best
    ensures forall c, q | c in ps && IsConjunct(q, c) && LeafOf(q).Some? ::
              CollectAll(ps, best).Some? && (LeafOf(q).value.EqLeaf? ==> CollectAll(ps, best).value.EqLeaf?)
    decreases ps, 0
  {
    if ps != [] {
      var b := Collect(ps[0], best);
      CollectFindsConjunct(ps[0], best);
      CollectAllFindsConjunct(ps[1..], b);
      assert ps[0] in ps && forall c | c in ps[1..] :: c in ps;
      assert forall c | c in ps :: c == ps[0] || c in ps[1..];
    }
  }

  /** A leaf is a comparison by equality or by order with a value that is not NULL, and an index lookup
      by it finds exactly the rows on which the comparison is TRUE. */
  lemma LeafIsExact(q: Pred, row: Row, ev: NodeSets)
    ensures LeafOf(q).Some? <==> q.Cmp? && !q.value.Null? && q.op != Neq && q.op != LikeOp
    ensures LeafOf(q).Some? ==>
              && (LeafOf(q).value.EqLeaf? <==> q.op == Eq)
              && (LeafTrue(LeafOf(q).value, row) <==> MatchesRow(q, row, ev))
  {
    if LeafOf(q).Some? {
      assert Eval(q, row, ev) == CmpTri(Cell(row, q.col), q.op, q.value);
    }
  }

  /** Leaf routing loses nothing: a matching row makes the access leaf true. An equality is returned
      exactly if some conjunct is one, and nothing exactly if no conjunct can be indexed. */
  lemma AccessLeafIsNecessary(p: Pred, row: Row, ev: NodeSets)
    ensures Collect(p, None).Some? && MatchesRow(p, row, ev) ==> LeafTrue(Collect(p, None).value, row)
    ensures Collect(p, None).Some? ==> exists q :: IsConjunct(q, p) && LeafOf(q) == Collect(p, None)
    ensures Collect(p, None).None? <==>
            !exists q :: IsConjunct(q, p) && q.Cmp? && !q.value.Null? && q.op != Neq && q.op != LikeOp
    ensures Collect(p, None).Some? && Collect(p, None).value.EqLeaf? <==>
            exists q :: IsConjunct(q, p) && q.Cmp? && !q.value.Null? && q.op == Eq
  {
    CollectFindsConjunct(p, None);
    forall q
      ensures LeafOf(q).Some? <==> q.Cmp? && !q.value.Null? && q.op != Neq && q.op != LikeOp
      ensures LeafOf(q).Some? ==> (LeafOf(q).value.EqLeaf? <==> q.op == Eq)
    {
      LeafIsExact(q, row, ev);
    }
    if Collect(p, None).Some? && MatchesRow(p, row, ev) {
      var q :| IsConjunct(q, p) && LeafOf(q) == Collect(p, None);
      ConjunctIsNecessary(q, p, row, ev);
      LeafIsExact(q, row, ev);
    }
  }

  // ---- The whole index ----------------------------------------------------------------------------

  /** Where a shape is filed: under its template key, else its access leaf, else the full-scan list. */
  datatype Slot = Key(cols: seq<nat>, vals: seq<Value>) | ByLeaf(leaf: AccessLeaf) | Fallback

  type Index = map<Slot, set<nat>>

  function SlotOf(p: Pred): Slot {
    match Template(p)
    case Some(t) => Key(Cols(t), Vals(t))
    case None =>
      match Collect(p, None)
      case Some(l) => ByLeaf(l)
      case None => Fallback
  }

  /** The slots a changed row looks into. */
  predicate Hit(slot: Slot, row: Row) {
    match slot
    case Key(cols, vals) => Project(row, cols) == vals
    case ByLeaf(l) => LeafTrue(l, row)
    case Fallback => true
  }

  function Filed(ix: Index, slot: Slot): set<nat> {
    if slot in ix then ix[slot] else {}
  }

  function Register(ix: Index, id: nat, slot: Slot): Index {
    ix[slot := Filed(ix, slot) + {id}]
  }

  function Slots(shapes: seq<Pred>): (slots: seq<Slot>)
    ensures |slots| == |shapes| && forall i | 0 <= i < |shapes| :: slots[i] == SlotOf(shapes[i])
  {
    seq(|shapes|, i requires 0 <= i < |shapes| => SlotOf(shapes[i]))
  }

  function Build(slots: seq<Slot>): Index {
    if slots == [] then map[]
    else
      var last := |slots| - 1;
      Register(Build(slots[..last]), last, slots[last])
  }

  /** Key hits are taken as they are; leaf hits and the full-scan list are still evaluated. */
  ghost function Route(shapes: seq<Pred>, ix: Index, row: Row, ev: NodeSets): set<nat> {
    set slot, id | slot in ix && Hit(slot, row) && id in ix[slot] && id < |shapes|
                   && (slot.Key? || MatchesRow(shapes[id], row, ev)) :: id
  }

  ghost function Scan(shapes: seq<Pred>, row: Row, ev: NodeSets): set<nat> {
    set id | 0 <= id < |shapes| && MatchesRow(shapes[id], row, ev)
  }

  /** A shape is filed in its own slot and in no other. */
  lemma {:induction false} BuildFilesOnce(slots: seq<Slot>, slot: Slot, id: nat)
    ensures id in Filed(Build(slots), slot) <==> id < |slots| && slots[id] == slot
  {
    if slots != [] {
      BuildFilesOnce(slots[..|slots| - 1], slot, id);
    }
  }

  lemma MatchHitsItsSlot(p: Pred, row: Row, ev: NodeSets)
    ensures MatchesRow(p, row, ev) ==> Hit(SlotOf(p), row)
    ensures SlotOf(p).Key? && Hit(SlotOf(p), row) ==> MatchesRow(p, row, ev)
  {
    if Template(p).Some? {
      TemplateIsKey(p, row, ev);
    }
    AccessLeafIsNecessary(p, row, ev);
  }

  /** Routing a change through the index finds exactly the shapes a full scan finds. */
  lemma RoutingIsScan(shapes: seq<Pred>, row: Row, ev: NodeSets)
    ensures Route(shapes, Build(Slots(shapes)), row, ev) == Scan(shapes, row, ev)
  {
    var ix := Build(Slots(shapes));
    forall id: nat
      ensures id in Route(shapes, ix, row, ev) <==> id in Scan(shapes, row, ev)
    {
      if id < |shapes| {
        var slot := SlotOf(shapes[id]);
        MatchHitsItsSlot(shapes[id], row, ev);
        BuildFilesOnce(Slots(shapes), slot, id);
        assert id in ix[slot];
        if id in Route(shapes, ix, row, ev) {
          var found :| found in ix && Hit(found, row) && id in ix[found]
                       && (found.Key? || MatchesRow(shapes[id], row, ev));
          BuildFilesOnce(Slots(shapes), found, id);
        }
      }
    }
  }
}
