/**
 Three-valued evaluation of compiled predicates, against SQL's own meaning of the same WHERE clause.

 `Eval` follows the engine's evaluator arm by arm; `Sql` is the reference: AND/OR by what their
 operands contain, LIKE by `Like.Matches`, and `IN` as `= ANY` over the inner set (section 8.4 of
 ISO/IEC 9075-2). A row is kept when the predicate is TRUE, so the two have to agree on TRUE only.
 */
module Predicate {
  import opened Basics
  import opened Values
  import Like

  datatype LeafOp = Eq | Neq | Lt | Lte | Gt | Gte | LikeOp

  datatype Pred =
    | MatchAll
    | Cmp(col: nat, op: LeafOp, value: Value)
    | IsNull(col: nat, isNull: bool)
    | And(ps: seq<Pred>)
    | Or(ps: seq<Pred>)
    | Not(p: Pred)
    | InSubquery(col: nat, sig: string, negated: bool)

  /** The maintained value set of every subquery node, by signature. */
  type NodeSets = string -> set<Value>

  // ---- The engine's evaluator ---------------------------------------------------------------------

  function CmpTri(cell: Value, op: LeafOp, value: Value): Tri {
    if cell.Null? || value.Null? then Unknown
    else match op
      case Eq => FromBool(cell == value)
      case Neq => FromBool(cell != value)
      case LikeOp =>
        if cell.Text? && value.Text? then FromBool(Like.Answer(cell.s, value.s)) else Unknown
      case _ =>
        match Compare(cell, value)
        case None => Unknown
        case Some(ord) => FromBool(OrderHolds(op, ord))
  }

  predicate OrderHolds(op: LeafOp, ord: Ordering) {
    match op
    case Lt => ord.Less?
    case Lte => ord.Less? || ord.Equal?
    case Gt => ord.Greater?
    case Gte => ord.Greater? || ord.Equal?
    case _ => false
  }

  /** `col IN set` / `col NOT IN set` as the engine decides it. */
  function InTri(cell: Value, members: set<Value>, negated: bool): Tri {
    if cell.Null? then Unknown
    else if !negated then FromBool(cell in members)
    else if Null in members then Unknown
    else FromBool(cell !in members)
  }

  function Eval(p: Pred, row: Row, ev: NodeSets): Tri
    decreases p, 1
  {
    match p
    case MatchAll => True
    case Cmp(col, op, value) => CmpTri(Cell(row, col), op, value)
    case IsNull(col, isNull) => FromBool(Cell(row, col).Null? == isNull)
    case And(ps) => EvalAnd(ps, row, ev, True)
    case Or(ps) => EvalOr(ps, row, ev, False)
    case Not(q) => Not3(Eval(q, row, ev))
    case InSubquery(col, sig, negated) => InTri(Cell(row, col), ev(sig), negated)
  }

  /** The AND loop: stops at the first FALSE, remembers an UNKNOWN. */
  function EvalAnd(ps: seq<Pred>, row: Row, ev: NodeSets, acc: Tri): Tri
    decreases ps, 0
  {
    if ps == [] then acc
    else match Eval(ps[0], row, ev)
      case False => False
      case Unknown => EvalAnd(ps[1..], row, ev, Unknown)
      case True => EvalAnd(ps[1..], row, ev, acc)
  }

  /** The OR loop: stops at the first TRUE, remembers an UNKNOWN. */
  function EvalOr(ps: seq<Pred>, row: Row, ev: NodeSets, acc: Tri): Tri
    decreases ps, 0
  {
    if ps == [] then acc
    else match Eval(ps[0], row, ev)
      case True => True
      case Unknown => EvalOr(ps[1..], row, ev, Unknown)
      case False => EvalOr(ps[1..], row, ev, acc)
  }

  /** Filter membership: the row is kept exactly when the predicate is TRUE. */
  predicate MatchesRow(p: Pred, row: Row, ev: NodeSets) {
    Eval(p, row, ev) == True
  }

  // ---- SQL's meaning ------------------------------------------------------------------------------

  /** `a` sorts before `b`: at the first place where they differ, `a` has ended or has the lower code
      point. */
  ghost predicate TextBefore(a: string, b: string) {
    exists i: nat :: FirstDifference(i, a, b) && (i == |a| || a[i] < b[i])
  }

  /** The texts agree up to `i` and `b` has a character there that `a` does not have. */
  predicate FirstDifference(i: nat, a: string, b: string) {
    && i <= |a| && i < |b|
    && a[..i] == b[..i]
    && (i < |a| ==> a[i] != b[i])
  }

  /** The order of the column's type: numbers by size, FALSE before TRUE, texts by code points. */
  ghost predicate SqlBefore(a: Value, b: Value) {
    match (a, b)
    case (Int(x), Int(y)) => x < y
    case (Float(x), Float(y)) => x < y
    case (Bool(x), Bool(y)) => !x && y
    case (Text(x), Text(y)) => TextBefore(x, y)
    case _ => false
  }

  ghost function SqlCmp(cell: Value, op: LeafOp, value: Value): Tri {
    if cell.Null? || value.Null? || !SameKind(cell, value) then Unknown
    else match op
      case Eq => FromBool(cell == value)
      case Neq => FromBool(cell != value)
      case Lt => FromBool(SqlBefore(cell, value))
      case Lte => FromBool(SqlBefore(cell, value) || cell == value)
      case Gt => FromBool(SqlBefore(value, cell))
      case Gte => FromBool(SqlBefore(value, cell) || cell == value)
      case LikeOp => if cell.Text? then FromBool(Like.Matches(cell.s, value.s)) else Unknown
  }

  function SqlEquals(a: Value, b: Value): Tri {
    if a.Null? || b.Null? then Unknown else FromBool(a == b)
  }

  /** `cell = ANY (members)`. */
  ghost function SqlIn(cell: Value, members: set<Value>): Tri {
    if exists v | v in members :: SqlEquals(cell, v) == True then True
    else if forall v | v in members :: SqlEquals(cell, v) == False then False
    else Unknown
  }

  ghost function Sql(p: Pred, row: Row, ev: NodeSets): Tri {
    match p
    case MatchAll => True
    case Cmp(col, op, value) => SqlCmp(Cell(row, col), op, value)
    case IsNull(col, isNull) => FromBool(Cell(row, col).Null? <==> isNull)
    case And(ps) =>
      if exists q | q in ps :: Sql(q, row, ev) == False then False
      else if exists q | q in ps :: Sql(q, row, ev) == Unknown then Unknown
      else True
    case Or(ps) =>
      if exists q | q in ps :: Sql(q, row, ev) == True then True
      else if exists q | q in ps :: Sql(q, row, ev) == Unknown then Unknown
      else False
    case Not(q) => Not3(Sql(q, row, ev))
    case InSubquery(col, sig, negated) =>
      var t := SqlIn(Cell(row, col), ev(sig));
      if negated then Not3(t) else t
  }

  // ---- What the loops compute ---------------------------------------------------------------------

  lemma {:induction false} EvalAndMeaning(ps: seq<Pred>, row: Row, ev: NodeSets, acc: Tri)
    requires acc != False
    ensures EvalAnd(ps, row, ev, acc) == False <==> exists q | q in ps :: Eval(q, row, ev) == False
    ensures EvalAnd(ps, row, ev, acc) == True <==> acc == True && forall q | q in ps :: Eval(q, row, ev) == True
    decreases |ps|
  {
    if ps != [] {
      var head, tail := ps[0], ps[1..];
      assert forall q | q in ps :: q == head || q in tail;
      assert head in ps && forall q | q in tail :: q in ps;
      EvalAndMeaning(tail, row, ev, Unknown);
      EvalAndMeaning(tail, row, ev, acc);
    }
  }

  lemma {:induction false} EvalOrMeaning(ps: seq<Pred>, row: Row, ev: NodeSets, acc: Tri)
    requires acc != True
    ensures EvalOr(ps, row, ev, acc) == True <==> exists q | q in ps :: Eval(q, row, ev) == True
    ensures EvalOr(ps, row, ev, acc) == False <==> acc == False && forall q | q in ps :: Eval(q, row, ev) == False
    decreases |ps|
  {
    if ps != [] {
      var head, tail := ps[0], ps[1..];
      assert forall q | q in ps :: q == head || q in tail;
      assert head in ps && forall q | q in tail :: q in ps;
      EvalOrMeaning(tail, row, ev, Unknown);
      EvalOrMeaning(tail, row, ev, acc);
    }
  }

  // ---- Where the leaves agree ---------------------------------------------------------------------

  /** A comparison whose literal has the column's kind, and whose LIKE cannot meet a `%` with a `%`. */
  predicate CmpSafe(cell: Value, op: LeafOp, value: Value) {
    && (cell.Null? || value.Null? || SameKind(cell, value))
    && (op == LikeOp && cell.Text? && value.Text? ==> '%' !in cell.s || '%' !in value.s)
  }

  /** The cases in which the engine's IN is TRUE exactly when SQL's is. */
  predicate InSafeForTrue(cell: Value, members: set<Value>, negated: bool) {
    negated && cell.Null? ==> members != {}
  }

  /** The cases in which the engine's IN is FALSE exactly when SQL's is. */
  predicate InSafeForFalse(cell: Value, members: set<Value>, negated: bool) {
    if negated then cell.Null? || cell !in members || Null !in members
    else if cell.Null? then members != {}
    else cell in members || Null !in members
  }

  /** SQL's IN, worked out on the cell and the set. */
  lemma SqlInCases(cell: Value, members: set<Value>)
    ensures SqlIn(cell, members) == True <==> !cell.Null? && cell in members
    ensures SqlIn(cell, members) == False <==>
            members == {} || (!cell.Null? && cell !in members && Null !in members)
  {
    if !cell.Null? && cell in members {
      assert SqlEquals(cell, cell) == True;
    }
    if Null in members {
      assert SqlEquals(cell, Null) == Unknown;
    }
    if cell.Null? && members != {} {
      var v :| v in members;
      assert SqlEquals(cell, v) == Unknown;
    }
  }

  ghost function SqlInLeaf(cell: Value, members: set<Value>, negated: bool): Tri {
    if negated then Not3(SqlIn(cell, members)) else SqlIn(cell, members)
  }

  /** An IN leaf standing alone selects the rows SQL selects exactly under `InSafeForTrue`; below a
      NOT, exactly under `InSafeForFalse`. Each guard reads only the cell and the inner set. */
  lemma InLeafAgreesIff(cell: Value, members: set<Value>, negated: bool)
    ensures (InTri(cell, members, negated) == True <==> SqlInLeaf(cell, members, negated) == True)
            <==> InSafeForTrue(cell, members, negated)
    ensures (Not3(InTri(cell, members, negated)) == True <==> Not3(SqlInLeaf(cell, members, negated)) == True)
            <==> InSafeForFalse(cell, members, negated)
  {
    SqlInCases(cell, members);
  }

  /** Every leaf is safe for the truth value its position needs: TRUE outside NOT, FALSE under one. */
  predicate SafeAt(p: Pred, row: Row, ev: NodeSets, positive: bool) {
    match p
    case MatchAll => true
    case Cmp(col, op, value) => CmpSafe(Cell(row, col), op, value)
    case IsNull(_, _) => true
    case And(ps) => forall q | q in ps :: SafeAt(q, row, ev, positive)
    case Or(ps) => forall q | q in ps :: SafeAt(q, row, ev, positive)
    case Not(q) => SafeAt(q, row, ev, !positive)
    case InSubquery(col, sig, negated) =>
      if positive then InSafeForTrue(Cell(row, col), ev(sig), negated)
      else InSafeForFalse(Cell(row, col), ev(sig), negated)
  }

  /** Where an IN leaf keeps another row than SQL: under NOT, an absent value against a set with a NULL
      (kept, where SQL has UNKNOWN); in NOT IN, a NULL cell against an empty set (dropped, where SQL keeps
      it). */
  lemma InLeafDiffers()
    ensures Not3(InTri(Int(1), {Null}, false)) == True && Not3(SqlInLeaf(Int(1), {Null}, false)) == Unknown
    ensures InTri(Null, {}, true) == Unknown && SqlInLeaf(Null, {}, true) == True
  {
    SqlInCases(Int(1), {Null});
    SqlInCases(Null, {});
  }

  /** The engine's text comparison is the order by first difference. */
  lemma {:induction false} CompareTextIs(a: string, b: string)
    ensures CompareText(a, b).Equal? <==> a == b
    ensures CompareText(a, b).Less? <==> TextBefore(a, b)
    ensures CompareText(a, b).Greater? <==> TextBefore(b, a)
  {
    if a == [] || b == [] || a[0] != b[0] {
      assert b != [] ==> (FirstDifference(0, a, b) <==> a == [] || a[0] != b[0]);
      assert a != [] ==> (FirstDifference(0, b, a) <==> b == [] || a[0] != b[0]);
      forall i: nat | 0 < i <= |a| && i <= |b|
        ensures a[..i] != b[..i]
      {
        assert a[..i][0] == a[0] && b[..i][0] == b[0];
      }
    } else {
      CompareTextIs(a[1..], b[1..]);
      DifferenceInTail(a, b);
      DifferenceInTail(b, a);
      assert a == [a[0]] + a[1..] && b == [b[0]] + b[1..];
    }
  }

  lemma DifferenceInTail(a: string, b: string)
    requires a != [] && b != [] && a[0] == b[0]
    ensures TextBefore(a, b) <==> TextBefore(a[1..], b[1..])
  {
    forall i: nat | i < |a| && i < |b|
      ensures FirstDifference(i + 1, a, b) <==> FirstDifference(i, a[1..], b[1..])
    {
      assert a[..i + 1] == [a[0]] + a[1..][..i] && b[..i + 1] == [b[0]] + b[1..][..i];
      assert a[..i + 1][1..] == a[1..][..i] && b[..i + 1][1..] == b[1..][..i];
    }
    if TextBefore(a, b) {
      var i: nat :| FirstDifference(i, a, b) && (i == |a| || a[i] < b[i]);
      assert i > 0;
      assert FirstDifference(i - 1, a[1..], b[1..]);
    }
    if TextBefore(a[1..], b[1..]) {
      var i: nat :| FirstDifference(i, a[1..], b[1..]) && (i == |a| - 1 || a[1..][i] < b[1..][i]);
      assert FirstDifference(i + 1, a, b);
    }
  }

  /** Values of one kind are ordered as their type orders them; other values have no order. */
  lemma CompareIs(a: Value, b: Value)
    ensures Compare(a, b).Some? <==> SameKind(a, b) && !a.Null?
    ensures Compare(a, b).Some? ==>
              var ord := Compare(a, b).value;
              && (ord.Less? <==> SqlBefore(a, b))
              && (ord.Equal? <==> a == b)
              && (ord.Greater? <==> SqlBefore(b, a))
  {
    if a.Text? && b.Text? {
      CompareTextIs(a.s, b.s);
    }
  }

  /** The engine's comparison is SQL's, for every operator and every kind of value. */
  lemma CmpAgrees(cell: Value, op: LeafOp, value: Value)
    requires CmpSafe(cell, op, value)
    ensures CmpTri(cell, op, value) == SqlCmp(cell, op, value)
  {
    if op == LikeOp && cell.Text? && value.Text? {
      Like.Agrees(cell.s, value.s);
    }
    CompareIs(cell, value);
  }

  /** AND and OR carry agreement on one truth value from the leaves up, although the leaves may differ
      on the other two; NOT swaps which truth value is needed. */
  lemma {:induction false} AgreesAt(p: Pred, row: Row, ev: NodeSets, positive: bool)
    requires SafeAt(p, row, ev, positive)
    ensures positive ==> (Eval(p, row, ev) == True <==> Sql(p, row, ev) == True)
    ensures !positive ==> (Eval(p, row, ev) == False <==> Sql(p, row, ev) == False)
    decreases p
  {
    match p
    case MatchAll =>
    case Cmp(col, op, value) => CmpAgrees(Cell(row, col), op, value);
    case IsNull(_, _) =>
    case And(ps) =>
      forall q | q in ps
        ensures positive ==> (Eval(q, row, ev) == True <==> Sql(q, row, ev) == True)
        ensures !positive ==> (Eval(q, row, ev) == False <==> Sql(q, row, ev) == False)
      {
        AgreesAt(q, row, ev, positive);
      }
      EvalAndMeaning(ps, row, ev, True);
    case Or(ps) =>
      forall q | q in ps
        ensures positive ==> (Eval(q, row, ev) == True <==> Sql(q, row, ev) == True)
        ensures !positive ==> (Eval(q, row, ev) == False <==> Sql(q, row, ev) == False)
      {
        AgreesAt(q, row, ev, positive);
      }
      EvalOrMeaning(ps, row, ev, False);
    case Not(q) => AgreesAt(q, row, ev, !positive);
    case InSubquery(col, sig, negated) =>
      InLeafAgreesIff(Cell(row, col), ev(sig), negated);
  }

  // ---- The engine's WHERE is SQL's WHERE ----------------------------------------------------------

  /** Under the leaf guards, the engine keeps exactly the rows SQL keeps, for every predicate. */
  lemma MatchesIsSqlWhere(p: Pred, row: Row, ev: NodeSets)
    requires SafeAt(p, row, ev, true)
    ensures MatchesRow(p, row, ev) <==> Sql(p, row, ev) == True
  {
    AgreesAt(p, row, ev, true);
  }

  predicate HasIn(p: Pred) {
    match p
    case And(ps) => exists q | q in ps :: HasIn(q)
    case Or(ps) => exists q | q in ps :: HasIn(q)
    case Not(q) => HasIn(q)
    case InSubquery(_, _, _) => true
    case _ => false
  }

  predicate NoInUnderNot(p: Pred) {
    match p
    case And(ps) => forall q | q in ps :: NoInUnderNot(q)
    case Or(ps) => forall q | q in ps :: NoInUnderNot(q)
    case Not(q) => !HasIn(q)
    case _ => true
  }

  predicate CmpsSafe(p: Pred, row: Row) {
    match p
    case Cmp(col, op, value) => CmpSafe(Cell(row, col), op, value)
    case And(ps) => forall q | q in ps :: CmpsSafe(q, row)
    case Or(ps) => forall q | q in ps :: CmpsSafe(q, row)
    case Not(q) => CmpsSafe(q, row)
    case _ => true
  }

  predicate NullsMeetNonEmptySets(p: Pred, row: Row, ev: NodeSets) {
    match p
    case And(ps) => forall q | q in ps :: NullsMeetNonEmptySets(q, row, ev)
    case Or(ps) => forall q | q in ps :: NullsMeetNonEmptySets(q, row, ev)
    case Not(q) => NullsMeetNonEmptySets(q, row, ev)
    case InSubquery(col, sig, _) => Cell(row, col).Null? ==> ev(sig) != {}
    case _ => true
  }

  /** No IN below a NOT, and no NULL cell tested against an empty set: SQL's rows, whatever else the
      sets hold (a NULL among them included). */
  lemma MatchesWithoutInUnderNot(p: Pred, row: Row, ev: NodeSets)
    requires NoInUnderNot(p) && NullsMeetNonEmptySets(p, row, ev) && CmpsSafe(p, row)
    ensures MatchesRow(p, row, ev) <==> Sql(p, row, ev) == True
  {
    PositiveSafe(p, row, ev);
    MatchesIsSqlWhere(p, row, ev);
  }

  lemma {:induction false} PositiveSafe(p: Pred, row: Row, ev: NodeSets)
    requires NoInUnderNot(p) && NullsMeetNonEmptySets(p, row, ev) && CmpsSafe(p, row)
    ensures SafeAt(p, row, ev, true)
    decreases p
  {
    match p
    case And(ps) => forall q | q in ps ensures SafeAt(q, row, ev, true) { PositiveSafe(q, row, ev); }
    case Or(ps) => forall q | q in ps ensures SafeAt(q, row, ev, true) { PositiveSafe(q, row, ev); }
    case Not(q) => SubqueryFreeSafe(q, row, ev, false);
    case _ =>
  }

  lemma {:induction false} SubqueryFreeSafe(p: Pred, row: Row, ev: NodeSets, positive: bool)
    requires !HasIn(p) && CmpsSafe(p, row)
    ensures SafeAt(p, row, ev, positive)
    decreases p
  {
    match p
    case And(ps) => forall q | q in ps ensures SafeAt(q, row, ev, positive) { SubqueryFreeSafe(q, row, ev, positive); }
    case Or(ps) => forall q | q in ps ensures SafeAt(q, row, ev, positive) { SubqueryFreeSafe(q, row, ev, positive); }
    case Not(q) => SubqueryFreeSafe(q, row, ev, !positive);
    case _ =>
  }

  /** Without subqueries the truth values are SQL's, all three of them. */
  lemma SubqueryFreeIsSql(p: Pred, row: Row, ev: NodeSets)
    requires !HasIn(p) && CmpsSafe(p, row)
    ensures Eval(p, row, ev) == Sql(p, row, ev)
  {
    SubqueryFreeSafe(p, row, ev, true);
    SubqueryFreeSafe(p, row, ev, false);
    AgreesAt(p, row, ev, true);
    AgreesAt(p, row, ev, false);
  }
}
