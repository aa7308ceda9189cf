/**
 Canonical text of a WHERE clause: the signature under which subqueries are shared. Equal text has to
 mean equal truth values on every row of every database, including through nested subqueries.
 */
module Canonical {
  import opened Basics
  import opened Values
  import opened Predicate
  import TextOrder

  /** A JSON literal; numbers are kept as their JSON text. */
  datatype Lit = JNull | JBool(b: bool) | JNum(digits: string) | JText(s: string)

  datatype Json =
    | Leaf(col: string, op: LeafOp, value: Lit)
    | NullTest(col: string, isNull: bool)
    | And(and: seq<Json>)
    | Or(or: seq<Json>)
    | Not(not: Json)
    | In(col: string, subquery: Subquery, negated: bool)

  datatype Subquery = Subquery(table: string, project: string, where_: Option<Json>)

  // ---- Text ---------------------------------------------------------------------------------------

  function BoolText(b: bool): string {
    if b then "true" else "false"
  }

  function EscapeChar(c: char): string {
    if c == '"' then "\\\"" else if c == '\\' then "\\\\" else [c]
  }

  function Escape(s: string): string {
    if s == [] then "" else EscapeChar(s[0]) + Escape(s[1..])
  }

  function LitText(v: Lit): string {
    match v
    case JNull => "null"
    case JBool(b) => BoolText(b)
    case JNum(digits) => digits
    case JText(s) => ['"'] + Escape(s) + ['"']
  }

  function OpText(op: LeafOp): string {
    match op
    case Eq => "Eq"
    case Neq => "Neq"
    case Lt => "Lt"
    case Lte => "Lte"
    case Gt => "Gt"
    case Gte => "Gte"
    case LikeOp => "Like"
  }

  function Join(parts: seq<string>): string {
    if parts == [] then ""
    else if |parts| == 1 then parts[0]
    else parts[0] + "," + Join(parts[1..])
  }

  function Node1(tag: char, a: string): string {
    [tag, '('] + a + [')']
  }

  function Node2(tag: char, a: string, b: string): string {
    [tag, '('] + a + [','] + b + [')']
  }

  function Node3(tag: char, a: string, b: string, c: string): string {
    [tag, '('] + a + [','] + b + [','] + c + [')']
  }

  function Canon(p: Json): string
    decreases p, 1
  {
    match p
    case Leaf(col, op, value) => Node3('L', col, OpText(op), LitText(value))
    case NullTest(col, isNull) => Node2('U', col, BoolText(isNull))
    case And(ps) => Node1('A', Join(TextOrder.Sort(CanonAll(ps))))
    case Or(ps) => Node1('O', Join(TextOrder.Sort(CanonAll(ps))))
    case Not(q) => Node1('N', Canon(q))
    case In(col, sub, negated) => Node3('I', col, BoolText(negated), Sig(sub))
  }

  function CanonAll(ps: seq<Json>): (texts: seq<string>)
    ensures |texts| == |ps| && forall i | 0 <= i < |ps| :: texts[i] == Canon(ps[i])
    decreases ps, 0
  {
    if ps == [] then [] else [Canon(ps[0])] + CanonAll(ps[1..])
  }

  function SigText(table: string, project: string, w: string): string {
    table + ['|'] + project + ['|'] + w
  }

  /** The signature of a subquery node. */
  function Sig(sub: Subquery): string
    decreases sub, 0
  {
    SigText(sub.table, sub.project, if sub.where_.Some? then Canon(sub.where_.value) else "")
  }

  // ---- Meaning ------------------------------------------------------------------------------------

  type NamedRow = map<string, Value>

  /** Table contents, and how a literal reads in a column (the column's type coerces it). */
  datatype Db = Db(rows: string -> set<NamedRow>, literal: (string, string, Lit) -> Value)

  function NamedCell(row: NamedRow, col: string): Value {
    if col in row then row[col] else Null
  }

  /** AND and OR depend on nothing but which truth values occur among the operands. */
  function AllOf(vs: seq<Tri>): Tri {
    if False in vs then False else if Unknown in vs then Unknown else True
  }

  function AnyOf(vs: seq<Tri>): Tri {
    if True in vs then True else if Unknown in vs then Unknown else False
  }

  function Meaning(p: Json, table: string, row: NamedRow, db: Db): Tri
    decreases p, 1
  {
    match p
    case Leaf(col, op, value) => CmpTri(NamedCell(row, col), op, db.literal(table, col, value))
    case NullTest(col, isNull) => FromBool(NamedCell(row, col).Null? == isNull)
    case And(ps) => AllOf(Meanings(ps, table, row, db))
    case Or(ps) => AnyOf(Meanings(ps, table, row, db))
    case Not(q) => Not3(Meaning(q, table, row, db))
    case In(col, sub, negated) => InTri(NamedCell(row, col), InnerSet(sub, db), negated)
  }

  function Meanings(ps: seq<Json>, table: string, row: NamedRow, db: Db): (vs: seq<Tri>)
    ensures |vs| == |ps| && forall i | 0 <= i < |ps| :: vs[i] == Meaning(ps[i], table, row, db)
    decreases ps, 0
  {
    if ps == [] then [] else [Meaning(ps[0], table, row, db)] + Meanings(ps[1..], table, row, db)
  }

  /** The projected column over the inner rows that pass the inner WHERE. */
  function InnerSet(sub: Subquery, db: Db): set<Value>
    decreases sub, 0
  {
    set r | r in db.rows(sub.table)
            && (sub.where_.Some? ==> Meaning(sub.where_.value, sub.table, r, db) == True)
          :: NamedCell(r, sub.project)
  }

  // ---- Reading the text back ----------------------------------------------------------------------

  /** A name that cannot be mistaken for the text around it. */
  predicate CleanName(s: string) {
    ',' !in s && '(' !in s && ')' !in s && '|' !in s
  }

  /** A JSON number's text: not empty, and none of the characters that delimit it or start another
      literal. */
  predicate NumberText(s: string) {
    s != [] && ')' !in s && s[0] != '"' && s[0] != 'n' && s[0] != 't' && s[0] != 'f'
  }

  predicate Clean(p: Json) {
    match p
    case Leaf(col, _, value) => CleanName(col) && (value.JNum? ==> NumberText(value.digits))
    case NullTest(col, _) => CleanName(col)
    case And(ps) => forall q | q in ps :: Clean(q)
    case Or(ps) => forall q | q in ps :: Clean(q)
    case Not(q) => Clean(q)
    case In(col, sub, _) => CleanName(col) && CleanSub(sub)
  }

  predicate CleanAll(ps: seq<Json>) {
    forall q | q in ps :: Clean(q)
  }

  predicate CleanSub(sub: Subquery) {
    CleanName(sub.table) && CleanName(sub.project) && (sub.where_.Some? ==> Clean(sub.where_.value))
  }

  /** A piece that ends at the first delimiter can be read back. */
  lemma {:induction false} SplitAt(a: string, b: string, d: char, x: string, y: string)
    requires d !in a && d !in b
    requires a + [d] + x == b + [d] + y
    ensures a == b && x == y
  {
    if a == [] || b == [] {
      assert (a + [d] + x)[0] == (b + [d] + y)[0];
      assert a == [] && b == [];
      assert (a + [d] + x)[1..] == x && (b + [d] + y)[1..] == y;
    } else {
      assert (a + [d] + x)[0] == a[0] && (b + [d] + y)[0] == b[0];
      assert (a + [d] + x)[1..] == a[1..] + [d] + x && (b + [d] + y)[1..] == b[1..] + [d] + y;
      SplitAt(a[1..], b[1..], d, x, y);
      assert a == [a[0]] + a[1..] && b == [b[0]] + b[1..];
    }
  }

  lemma DropFront(p: string, x: string, y: string)
    requires p + x == p + y
    ensures x == y
  {
    assert (p + x)[|p|..] == x && (p + y)[|p|..] == y;
  }

  lemma ReadNode1(t: char, u: char, a: string, b: string, x: string, y: string)
    requires Node1(t, a) + x == Node1(u, b) + y
    ensures t == u && a + [')'] + x == b + [')'] + y
  {
    assert Node1(t, a) + x == [t, '('] + (a + [')'] + x) && Node1(u, b) + y == [u, '('] + (b + [')'] + y);
    assert ([t, '('] + (a + [')'] + x))[0] == t && ([u, '('] + (b + [')'] + y))[0] == u;
    DropFront([t, '('], a + [')'] + x, b + [')'] + y);
  }

  lemma ReadNode2(t: char, u: char, a: string, b: string, c: string, d: string, x: string, y: string)
    requires ',' !in a && ',' !in b
    requires Node2(t, a, c) + x == Node2(u, b, d) + y
    ensures t == u && a == b && c + [')'] + x == d + [')'] + y
  {
    var v, w := c + [')'] + x, d + [')'] + y;
    assert Node2(t, a, c) + x == [t, '('] + (a + [','] + v) && Node2(u, b, d) + y == [u, '('] + (b + [','] + w);
    assert ([t, '('] + (a + [','] + v))[0] == t && ([u, '('] + (b + [','] + w))[0] == u;
    DropFront([t, '('], a + [','] + v, b + [','] + w);
    SplitAt(a, b, ',', v, w);
  }

  lemma ReadNode3(t: char, u: char, a: string, b: string, c: string, d: string, e: string, f: string, x: string, y: string)
    requires ',' !in a && ',' !in b && ',' !in c && ',' !in d
    requires Node3(t, a, c, e) + x == Node3(u, b, d, f) + y
    ensures t == u && a == b && c == d && e + [')'] + x == f + [')'] + y
  {
    var v, w := e + [')'] + x, f + [')'] + y;
    assert Node3(t, a, c, e) + x == Node2(t, a, c + [','] + e) + x;
    assert Node3(u, b, d, f) + y == Node2(u, b, d + [','] + f) + y;
    ReadNode2(t, u, a, b, c + [','] + e, d + [','] + f, x, y);
    assert c + [','] + e + [')'] + x == c + [','] + v && d + [','] + f + [')'] + y == d + [','] + w;
    SplitAt(c, d, ',', v, w);
  }

  lemma ReadSigText(s: string, t: string, a: string, b: string, c: string, d: string, x: string, y: string)
    requires '|' !in s && '|' !in t && '|' !in a && '|' !in b
    requires SigText(s, a, c) + x == SigText(t, b, d) + y
    ensures s == t && a == b && c + x == d + y
  {
    assert SigText(s, a, c) + x == s + ['|'] + (a + ['|'] + (c + x));
    assert SigText(t, b, d) + y == t + ['|'] + (b + ['|'] + (d + y));
    SplitAt(s, t, '|', a + ['|'] + (c + x), b + ['|'] + (d + y));
    SplitAt(a, b, '|', c + x, d + y);
  }

  /** No escaped character starts another, and none starts with the closing quote. */
  lemma EscapeCharReadBack(c: char, d: char, x: string, y: string)
    requires EscapeChar(c) + x == EscapeChar(d) + y
    ensures c == d && x == y
  {
    var a, b := EscapeChar(c), EscapeChar(d);
    assert (a + x)[0] == a[0] && (b + y)[0] == b[0];
    if |a| == 2 && |b| == 2 {
      assert (a + x)[1] == a[1] && (b + y)[1] == b[1];
    }
    DropFront(a, x, y);
  }

  lemma EscapeStart(s: string, x: string)
    ensures (Escape(s) + ['"'] + x)[0] == '"' <==> s == []
  {
    if s == [] {
      assert Escape(s) + ['"'] + x == ['"'] + x;
    } else {
      assert Escape(s) + ['"'] + x == EscapeChar(s[0]) + (Escape(s[1..]) + ['"'] + x);
    }
  }

  lemma {:induction false} EscapeReadBack(s: string, t: string, x: string, y: string)
    requires Escape(s) + ['"'] + x == Escape(t) + ['"'] + y
    ensures s == t && x == y
  {
    EscapeStart(s, x);
    EscapeStart(t, y);
    if s == [] {
      DropFront(['"'], x, y) by {
        assert Escape(s) + ['"'] + x == ['"'] + x && Escape(t) + ['"'] + y == ['"'] + y;
      }
    } else {
      EscapeStep(s, t, x, y);
      EscapeReadBack(s[1..], t[1..], x, y);
      assert s == [s[0]] + s[1..] && t == [t[0]] + t[1..];
    }
  }

  lemma EscapeStep(s: string, t: string, x: string, y: string)
    requires s != [] && t != []
    requires Escape(s) + ['"'] + x == Escape(t) + ['"'] + y
    ensures s[0] == t[0] && Escape(s[1..]) + ['"'] + x == Escape(t[1..]) + ['"'] + y
  {
    Regroup(EscapeChar(s[0]), Escape(s[1..]), x);
    Regroup(EscapeChar(t[0]), Escape(t[1..]), y);
    EscapeCharReadBack(s[0], t[0], Escape(s[1..]) + ['"'] + x, Escape(t[1..]) + ['"'] + y);
  }

  lemma Regroup(a: string, b: string, x: string)
    ensures a + b + ['"'] + x == a + (b + ['"'] + x)
  {
  }

  lemma QuotedReadBack(s: string, t: string, x: string, y: string)
    requires ['"'] + Escape(s) + ['"'] + [')'] + x == ['"'] + Escape(t) + ['"'] + [')'] + y
    ensures s == t && x == y
  {
    var v, w := Escape(s) + ['"'] + ([')'] + x), Escape(t) + ['"'] + ([')'] + y);
    assert ['"'] + Escape(s) + ['"'] + [')'] + x == ['"'] + v && ['"'] + Escape(t) + ['"'] + [')'] + y == ['"'] + w;
    DropFront(['"'], v, w);
    EscapeReadBack(s, t, [')'] + x, [')'] + y);
    DropFront([')'], x, y);
  }

  lemma LitTextShape(v: Lit)
    requires v.JNum? ==> NumberText(v.digits)
    ensures LitText(v) != [] && (v.JText? <==> LitText(v)[0] == '"')
    ensures !v.JText? ==> ')' !in LitText(v)
  {
  }

  lemma LitTextInjective(v: Lit, w: Lit)
    requires (v.JNum? ==> NumberText(v.digits)) && (w.JNum? ==> NumberText(w.digits))
    requires !v.JText? && !w.JText? && LitText(v) == LitText(w)
    ensures v == w
  {
    assert LitText(v)[0] == LitText(w)[0];
  }

  lemma LitReadBack(v: Lit, w: Lit, x: string, y: string)
    requires (v.JNum? ==> NumberText(v.digits)) && (w.JNum? ==> NumberText(w.digits))
    requires LitText(v) + [')'] + x == LitText(w) + [')'] + y
    ensures v == w && x == y
  {
    LitTextShape(v);
    LitTextShape(w);
    assert (LitText(v) + [')'] + x)[0] == LitText(v)[0];
    assert (LitText(w) + [')'] + y)[0] == LitText(w)[0];
    if v.JText? {
      QuotedReadBack(v.s, w.s, x, y);
    } else {
      SplitAt(LitText(v), LitText(w), ')', x, y);
      LitTextInjective(v, w);
    }
  }

  /** The same clause up to the order of AND and OR operands, at every depth. */
  ghost predicate Alike(p: Json, q: Json) {
    match p
    case Leaf(_, _, _) => q == p
    case NullTest(_, _) => q == p
    case And(ps) =>
      q.And? && (forall c | c in ps :: exists d | d in q.and :: Alike(c, d))
             && (forall d | d in q.and :: exists c | c in ps :: Alike(c, d))
    case Or(ps) =>
      q.Or? && (forall c | c in ps :: exists d | d in q.or :: Alike(c, d))
            && (forall d | d in q.or :: exists c | c in ps :: Alike(c, d))
    case Not(r) => q.Not? && Alike(r, q.not)
    case In(col, sub, negated) =>
      q.In? && q.col == col && q.negated == negated && AlikeSub(sub, q.subquery)
  }

  ghost predicate AlikeSub(s: Subquery, t: Subquery) {
    && s.table == t.table && s.project == t.project
    && (s.where_.Some? <==> t.where_.Some?)
    && (s.where_.Some? ==> Alike(s.where_.value, t.where_.value))
  }

  function Tag(p: Json): char {
    match p
    case Leaf(_, _, _) => 'L'
    case NullTest(_, _) => 'U'
    case And(_) => 'A'
    case Or(_) => 'O'
    case Not(_) => 'N'
    case In(_, _, _) => 'I'
  }

  lemma CanonTag(p: Json, x: string)
    ensures Canon(p) != [] && (Canon(p) + x)[0] == Canon(p)[0] == Tag(p)
  {
  }

  /** Canonical text can be read back from the front of any text: it determines the clause up to the
      order of AND and OR operands, and where the clause ends. */
  lemma {:induction false} ReadBack(p: Json, q: Json, x: string, y: string)
    requires Clean(p) && Clean(q)
    requires Canon(p) + x == Canon(q) + y
    ensures Alike(p, q) && Canon(p) == Canon(q) && x == y
    decreases p, 1, 0
  {
    CanonTag(p, x);
    CanonTag(q, y);
    match p
    case Leaf(_, _, _) => LeafReadBack(p, q, x, y);
    case NullTest(_, _) => NullTestReadBack(p, q, x, y);
    case And(ps) =>
      var s, t := Join(TextOrder.Sort(CanonAll(ps))), Join(TextOrder.Sort(CanonAll(q.and)));
      ReadNode1('A', 'A', s, t, x, y);
      OperandsReadBack(ps, q.and, x, y);
    case Or(ps) =>
      var s, t := Join(TextOrder.Sort(CanonAll(ps))), Join(TextOrder.Sort(CanonAll(q.or)));
      ReadNode1('O', 'O', s, t, x, y);
      OperandsReadBack(ps, q.or, x, y);
    case Not(r) =>
      ReadNode1('N', 'N', Canon(r), Canon(q.not), x, y);
      assert Canon(r) + [')'] + x == Canon(r) + ([')'] + x) && Canon(q.not) + [')'] + y == Canon(q.not) + ([')'] + y);
      ReadBack(r, q.not, [')'] + x, [')'] + y);
      DropFront([')'], x, y);
    case In(_, sub, _) =>
      InHeadReadBack(p, q, x, y);
      SigReadBack(sub, q.subquery, x, y);
  }

  lemma LeafReadBack(p: Json, q: Json, x: string, y: string)
    requires p.Leaf? && q.Leaf? && Clean(p) && Clean(q)
    requires Canon(p) + x == Canon(q) + y
    ensures p == q && x == y
  {
    var a, b := OpText(p.op), OpText(q.op);
    assert ',' !in a && ',' !in b;
    ReadNode3('L', 'L', p.col, q.col, a, b, LitText(p.value), LitText(q.value), x, y);
    LitReadBack(p.value, q.value, x, y);
    assert a == b ==> p.op == q.op;
  }

  lemma NullTestReadBack(p: Json, q: Json, x: string, y: string)
    requires p.NullTest? && q.NullTest? && Clean(p) && Clean(q)
    requires Canon(p) + x == Canon(q) + y
    ensures p == q && x == y
  {
    ReadNode2('U', 'U', p.col, q.col, BoolText(p.isNull), BoolText(q.isNull), x, y);
    LitReadBack(JBool(p.isNull), JBool(q.isNull), x, y);
  }

  lemma InHeadReadBack(p: Json, q: Json, x: string, y: string)
    requires p.In? && q.In? && Clean(p) && Clean(q)
    requires Canon(p) + x == Canon(q) + y
    ensures p.col == q.col && p.negated == q.negated
    ensures Sig(p.subquery) + [')'] + x == Sig(q.subquery) + [')'] + y
  {
    var a, b := BoolText(p.negated), BoolText(q.negated);
    ReadNode3('I', 'I', p.col, q.col, a, b, Sig(p.subquery), Sig(q.subquery), x, y);
    assert a[0] == b[0];
  }

  function WhereText(sub: Subquery): string {
    if sub.where_.Some? then Canon(sub.where_.value) else ""
  }

  lemma WhereTextHead(sub: Subquery, x: string)
    ensures (WhereText(sub) + ([')'] + x))[0] == if sub.where_.Some? then Tag(sub.where_.value) else ')'
  {
    if sub.where_.Some? {
      CanonTag(sub.where_.value, [')'] + x);
    } else {
      assert WhereText(sub) + ([')'] + x) == [')'] + x;
    }
  }

  lemma {:induction false} SigReadBack(s: Subquery, t: Subquery, x: string, y: string)
    requires CleanSub(s) && CleanSub(t)
    requires Sig(s) + [')'] + x == Sig(t) + [')'] + y
    ensures AlikeSub(s, t) && Sig(s) == Sig(t) && x == y
    decreases s, 0, 0
  {
    var w, z := WhereText(s), WhereText(t);
    assert Sig(s) + [')'] + x == SigText(s.table, s.project, w) + ([')'] + x);
    assert Sig(t) + [')'] + y == SigText(t.table, t.project, z) + ([')'] + y);
    ReadSigText(s.table, t.table, s.project, t.project, w, z, [')'] + x, [')'] + y);
    WhereTextHead(s, x);
    WhereTextHead(t, y);
    if s.where_.Some? {
      ReadBack(s.where_.value, t.where_.value, [')'] + x, [')'] + y);
    }
    DropFront(w + [')'], x, y) by {
      assert w + [')'] + x == w + ([')'] + x) && z + [')'] + y == z + ([')'] + y);
    }
  }

  ghost predicate TextsOf(texts: seq<string>, ps: seq<Json>) {
    forall s | s in texts :: exists i | 0 <= i < |ps| :: s == Canon(ps[i])
  }

  lemma TextsOfTail(texts: seq<string>, ps: seq<Json>)
    requires TextsOf(texts, ps) && texts != []
    ensures TextsOf(texts[1..], ps)
  {
    assert forall u | u in texts[1..] :: u in texts;
  }

  lemma SortedTexts(ps: seq<Json>)
    ensures TextsOf(TextOrder.Sort(CanonAll(ps)), ps)
    ensures forall c | c in ps :: Canon(c) in TextOrder.Sort(CanonAll(ps))
  {
    var sorted, texts := TextOrder.Sort(CanonAll(ps)), CanonAll(ps);
    forall s | s in sorted
      ensures exists i | 0 <= i < |ps| :: s == Canon(ps[i])
    {
      assert s in multiset(sorted);
      assert s in texts;
      var i :| 0 <= i < |texts| && texts[i] == s;
    }
    forall c | c in ps
      ensures Canon(c) in sorted
    {
      var i :| 0 <= i < |ps| && ps[i] == c;
      assert texts[i] in multiset(sorted);
    }
  }

  lemma {:induction false} OperandsReadBack(ps: seq<Json>, qs: seq<Json>, x: string, y: string)
    requires CleanAll(ps) && CleanAll(qs)
    requires Join(TextOrder.Sort(CanonAll(ps))) + [')'] + x == Join(TextOrder.Sort(CanonAll(qs))) + [')'] + y
    ensures TextOrder.Sort(CanonAll(ps)) == TextOrder.Sort(CanonAll(qs)) && x == y
    ensures (forall c | c in ps :: exists d | d in qs :: Alike(c, d))
    ensures (forall d | d in qs :: exists c | c in ps :: Alike(c, d))
    decreases ps, 1, 0
  {
    var s, t := TextOrder.Sort(CanonAll(ps)), TextOrder.Sort(CanonAll(qs));
    SortedTexts(ps);
    SortedTexts(qs);
    JoinReadBack(ps, qs, s, t, x, y);
    forall c | c in ps
      ensures exists d | d in qs :: Alike(c, d)
    {
      var j :| 0 <= j < |qs| && Canon(c) == Canon(qs[j]);
      assert qs[j] in qs;
      ReadBack(c, qs[j], "", "");
    }
    forall d | d in qs
      ensures exists c | c in ps :: Alike(c, d)
    {
      var i :| 0 <= i < |ps| && Canon(d) == Canon(ps[i]);
      assert ps[i] in ps;
      ReadBack(ps[i], d, "", "");
    }
  }

  /** What follows the first part of a joined list. */
  function AfterHead(parts: seq<string>, x: string): (r: string)
    requires parts != []
    ensures r != [] && r[0] == if |parts| == 1 then ')' else ','
  {
    if |parts| == 1 then [')'] + x else [','] + (Join(parts[1..]) + [')'] + x)
  }

  lemma JoinHead(parts: seq<string>, x: string)
    requires parts != []
    ensures Join(parts) + [')'] + x == parts[0] + AfterHead(parts, x)
  {
    var h := parts[0];
    if |parts| > 1 {
      var t := Join(parts[1..]);
      assert Join(parts) == h + [','] + t;
      assert h + [','] + t + [')'] + x == h + ([','] + (t + [')'] + x));
    } else {
      assert h + [')'] + x == h + ([')'] + x);
    }
  }

  lemma JoinStart(ps: seq<Json>, s: seq<string>, x: string)
    requires TextsOf(s, ps)
    ensures (Join(s) + [')'] + x)[0] == ')' <==> s == []
  {
    if s != [] {
      JoinHead(s, x);
      assert s[0] in s;
      var i :| 0 <= i < |ps| && s[0] == Canon(ps[i]);
      CanonTag(ps[i], AfterHead(s, x));
    } else {
      assert Join(s) + [')'] + x == [')'] + x;
    }
  }

  lemma {:induction false} JoinReadBack(ps: seq<Json>, qs: seq<Json>, s: seq<string>, t: seq<string>, x: string, y: string)
    requires CleanAll(ps) && CleanAll(qs)
    requires TextsOf(s, ps) && TextsOf(t, qs)
    requires Join(s) + [')'] + x == Join(t) + [')'] + y
    ensures s == t && x == y
    decreases ps, 0, |s|
  {
    JoinStart(ps, s, x);
    JoinStart(qs, t, y);
    if s == [] {
      DropFront([')'], x, y) by {
        assert Join(s) + [')'] + x == [')'] + x && Join(t) + [')'] + y == [')'] + y;
      }
    } else {
      JoinHeadReadBack(ps, qs, s, t, x, y);
      AfterHeadStep(s, t, x, y);
      if |s| > 1 {
        TextsOfTail(s, ps);
        TextsOfTail(t, qs);
        JoinReadBack(ps, qs, s[1..], t[1..], x, y);
      }
      HeadAndTail(s, t);
    }
  }

  lemma HeadAndTail(s: seq<string>, t: seq<string>)
    requires s != [] && t != [] && s[0] == t[0] && (|s| == 1 <==> |t| == 1)
    requires |s| > 1 ==> s[1..] == t[1..]
    ensures s == t
  {
    assert s == [s[0]] + s[1..] && t == [t[0]] + t[1..];
  }

  lemma {:induction false} JoinHeadReadBack(ps: seq<Json>, qs: seq<Json>, s: seq<string>, t: seq<string>, x: string, y: string)
    requires CleanAll(ps) && CleanAll(qs)
    requires TextsOf(s, ps) && TextsOf(t, qs) && s != [] && t != []
    requires Join(s) + [')'] + x == Join(t) + [')'] + y
    ensures s[0] == t[0] && AfterHead(s, x) == AfterHead(t, y)
    decreases ps, 0, 0
  {
    JoinHead(s, x);
    JoinHead(t, y);
    assert s[0] in s && t[0] in t;
    var i :| 0 <= i < |ps| && s[0] == Canon(ps[i]);
    var j :| 0 <= j < |qs| && t[0] == Canon(qs[j]);
    assert ps[i] in ps && qs[j] in qs;
    ReadBack(ps[i], qs[j], AfterHead(s, x), AfterHead(t, y));
  }

  lemma AfterHeadStep(s: seq<string>, t: seq<string>, x: string, y: string)
    requires s != [] && t != [] && AfterHead(s, x) == AfterHead(t, y)
    ensures |s| == 1 <==> |t| == 1
    ensures |s| == 1 ==> x == y
    ensures |s| > 1 ==> Join(s[1..]) + [')'] + x == Join(t[1..]) + [')'] + y
  {
    if |s| == 1 {
      DropFront([')'], x, y);
    } else {
      DropFront([','], Join(s[1..]) + [')'] + x, Join(t[1..]) + [')'] + y);
    }
  }

  // ---- Equal text, equal up to the order of operands ----------------------------------------------

  /** The same clause but for rearranged AND and OR operands, at any depth and inside subqueries; no
      operand is dropped or repeated. */
  ghost predicate Shuffled(p: Json, q: Json)
    decreases p, 1
  {
    match p
    case Leaf(_, _, _) => q == p
    case NullTest(_, _) => q == p
    case And(ps) => q.And? && exists rs :: multiset(rs) == multiset(q.and) && Lined(ps, rs)
    case Or(ps) => q.Or? && exists rs :: multiset(rs) == multiset(q.or) && Lined(ps, rs)
    case Not(r) => q.Not? && Shuffled(r, q.not)
    case In(col, sub, negated) => q.In? && q.col == col && q.negated == negated && ShuffledSub(sub, q.subquery)
  }

  ghost predicate Lined(ps: seq<Json>, rs: seq<Json>)
    decreases ps, 0
  {
    |ps| == |rs| && forall i | 0 <= i < |ps| :: Shuffled(ps[i], rs[i])
  }

  ghost predicate ShuffledSub(s: Subquery, t: Subquery)
    decreases s, 0
  {
    && s.table == t.table && s.project == t.project
    && (s.where_.Some? <==> t.where_.Some?)
    && (s.where_.Some? ==> Shuffled(s.where_.value, t.where_.value))
  }

  lemma CanonOfPermutation(ps: seq<Json>, qs: seq<Json>)
    requires multiset(ps) == multiset(qs)
    ensures multiset(CanonAll(ps)) == multiset(CanonAll(qs))
  {
    var text := (p: Json) => Canon(p);
    TextOrder.TextsOfPermutation(text, ps, qs);
    assert CanonAll(ps) == TextOrder.Texts(text, ps) && CanonAll(qs) == TextOrder.Texts(text, qs);
  }

  lemma {:induction false} CanonOfShuffled(p: Json, q: Json)
    requires Shuffled(p, q)
    ensures Canon(p) == Canon(q)
    decreases p, 1
  {
    match p
    case And(ps) =>
      var rs :| multiset(rs) == multiset(q.and) && Lined(ps, rs);
      CanonOfLined(ps, rs, q.and);
    case Or(ps) =>
      var rs :| multiset(rs) == multiset(q.or) && Lined(ps, rs);
      CanonOfLined(ps, rs, q.or);
    case Not(r) => CanonOfShuffled(r, q.not);
    case In(_, sub, _) => SigOfShuffled(sub, q.subquery);
    case _ =>
  }

  lemma {:induction false} CanonOfLined(ps: seq<Json>, rs: seq<Json>, qs: seq<Json>)
    requires Lined(ps, rs) && multiset(rs) == multiset(qs)
    ensures TextOrder.Sort(CanonAll(ps)) == TextOrder.Sort(CanonAll(qs))
    decreases ps, 0
  {
    forall i | 0 <= i < |ps|
      ensures Canon(ps[i]) == Canon(rs[i])
    {
      CanonOfShuffled(ps[i], rs[i]);
    }
    assert CanonAll(ps) == CanonAll(rs);
    CanonOfPermutation(rs, qs);
    TextOrder.SortIgnoresOrder(CanonAll(rs), CanonAll(qs));
  }

  lemma {:induction false} SigOfShuffled(s: Subquery, t: Subquery)
    requires ShuffledSub(s, t)
    ensures Sig(s) == Sig(t)
    decreases s, 0
  {
    if s.where_.Some? {
      CanonOfShuffled(s.where_.value, t.where_.value);
    }
  }

  lemma TakeOut(qs: seq<Json>, j: nat)
    requires j < |qs|
    ensures multiset(qs) == multiset(TextOrder.RemoveAt(qs, j)) + multiset{qs[j]}
    ensures multiset(CanonAll(qs)) == multiset(CanonAll(TextOrder.RemoveAt(qs, j))) + multiset{Canon(qs[j])}
  {
    var text := (p: Json) => Canon(p);
    var rest := TextOrder.RemoveAt(qs, j);
    TextOrder.TextsRemove(text, qs, j);
    assert CanonAll(qs) == TextOrder.Texts(text, qs) && CanonAll(rest) == TextOrder.Texts(text, rest);
  }

  lemma FindText(texts: seq<string>, x: string) returns (j: nat)
    requires x in multiset(texts)
    ensures j < |texts| && texts[j] == x
  {
    j :| 0 <= j < |texts| && texts[j] == x;
  }

  lemma RearrangeRest(texts: seq<string>, qs: seq<Json>, j: nat)
    requires multiset(CanonAll(qs)) == multiset(texts)
    requires texts != [] && j < |qs| && CanonAll(qs)[j] == texts[0]
    ensures multiset(CanonAll(TextOrder.RemoveAt(qs, j))) == multiset(texts[1..])
  {
    TakeOut(qs, j);
    TextOrder.MultisetTail(texts);
  }

  lemma PutBack(texts: seq<string>, qs: seq<Json>, j: nat, rest: seq<Json>)
    requires texts != [] && j < |qs| && Canon(qs[j]) == texts[0]
    requires multiset(rest) == multiset(TextOrder.RemoveAt(qs, j)) && CanonAll(rest) == texts[1..]
    ensures multiset([qs[j]] + rest) == multiset(qs) && CanonAll([qs[j]] + rest) == texts
  {
    TakeOut(qs, j);
    assert texts == [texts[0]] + texts[1..];
  }

  /** Clauses whose texts are another list rearranged can be rearranged to show that list. */
  lemma {:induction false} Rearrange(texts: seq<string>, qs: seq<Json>) returns (rs: seq<Json>)
    requires multiset(CanonAll(qs)) == multiset(texts)
    ensures multiset(rs) == multiset(qs) && CanonAll(rs) == texts
    decreases |texts|
  {
    if texts == [] {
      assert |qs| == |multiset(CanonAll(qs))| == |multiset(texts)|;
      rs := [];
    } else {
      assert texts[0] in multiset(texts);
      var j := FindText(CanonAll(qs), texts[0]);
      RearrangeRest(texts, qs, j);
      var rest := Rearrange(texts[1..], TextOrder.RemoveAt(qs, j));
      PutBack(texts, qs, j, rest);
      rs := [qs[j]] + rest;
    }
  }

  lemma {:induction false} SameTextShuffled(p: Json, q: Json)
    requires Clean(p) && Clean(q) && Canon(p) == Canon(q)
    ensures Shuffled(p, q)
    decreases p, 1
  {
    ReadBack(p, q, "", "");
    match p
    case And(ps) =>
      ReadNode1('A', 'A', Join(TextOrder.Sort(CanonAll(ps))), Join(TextOrder.Sort(CanonAll(q.and))), "", "");
      var rs := SameTextsLined(ps, q.and);
    case Or(ps) =>
      ReadNode1('O', 'O', Join(TextOrder.Sort(CanonAll(ps))), Join(TextOrder.Sort(CanonAll(q.or))), "", "");
      var rs := SameTextsLined(ps, q.or);
    case Not(r) =>
      ReadNode1('N', 'N', Canon(r), Canon(q.not), "", "");
      assert Canon(r) + [')'] + "" == Canon(r) + [')'] && Canon(q.not) + [')'] + "" == Canon(q.not) + [')'];
      ReadBack(r, q.not, [')'], [')']);
      SameTextShuffled(r, q.not);
    case In(_, sub, _) =>
      InHeadReadBack(p, q, "", "");
      SameSigShuffled(sub, q.subquery);
    case _ =>
  }

  lemma {:induction false} SameTextsLined(ps: seq<Json>, qs: seq<Json>) returns (rs: seq<Json>)
    requires CleanAll(ps) && CleanAll(qs)
    requires Join(TextOrder.Sort(CanonAll(ps))) + [')'] + "" == Join(TextOrder.Sort(CanonAll(qs))) + [')'] + ""
    ensures multiset(rs) == multiset(qs) && Lined(ps, rs)
    decreases ps, 0
  {
    OperandsReadBack(ps, qs, "", "");
    TextOrder.SortIgnoresOrder(CanonAll(ps), CanonAll(qs));
    rs := Rearrange(CanonAll(ps), qs);
    assert |ps| == |CanonAll(rs)| == |rs|;
    forall i | 0 <= i < |ps|
      ensures Shuffled(ps[i], rs[i])
    {
      assert rs[i] in multiset(qs);
      assert CanonAll(rs)[i] == Canon(rs[i]);
      SameTextShuffled(ps[i], rs[i]);
    }
  }

  lemma {:induction false} SameSigShuffled(s: Subquery, t: Subquery)
    requires CleanSub(s) && CleanSub(t)
    requires Sig(s) + [')'] + "" == Sig(t) + [')'] + ""
    ensures ShuffledSub(s, t)
    decreases s, 0
  {
    SigReadBack(s, t, "", "");
    assert AlikeSub(s, t);
    if s.where_.Some? {
      var w, z := Canon(s.where_.value), Canon(t.where_.value);
      DropFront(s.table + ['|'] + s.project + ['|'], w, z);
      SameTextShuffled(s.where_.value, t.where_.value);
    }
  }

  /** Two clauses have one canonical text exactly if they are the same but for the order of AND and OR
      operands, at any depth and inside nested subqueries. */
  lemma CanonIff(p: Json, q: Json)
    requires Clean(p) && Clean(q)
    ensures Canon(p) == Canon(q) <==> Shuffled(p, q)
  {
    if Canon(p) == Canon(q) {
      SameTextShuffled(p, q);
    }
    if Shuffled(p, q) {
      CanonOfShuffled(p, q);
    }
  }

  /** Likewise for signatures: two subqueries share one node exactly if they are the same but for the
      order of operands. */
  lemma SigIff(s: Subquery, t: Subquery)
    requires CleanSub(s) && CleanSub(t)
    ensures Sig(s) == Sig(t) <==> ShuffledSub(s, t)
  {
    if Sig(s) == Sig(t) {
      SameSigShuffled(s, t);
    }
    if ShuffledSub(s, t) {
      SigOfShuffled(s, t);
    }
  }

  // ---- Equal text, equal meaning ------------------------------------------------------------------

  lemma {:induction false} AlikeMeansEqual(p: Json, q: Json, table: string, row: NamedRow, db: Db)
    requires Alike(p, q)
    ensures Meaning(p, table, row, db) == Meaning(q, table, row, db)
    decreases p, 1
  {
    match p
    case And(ps) => AlikeOperands(ps, q.and, table, row, db);
    case Or(ps) => AlikeOperands(ps, q.or, table, row, db);
    case Not(r) => AlikeMeansEqual(r, q.not, table, row, db);
    case In(col, sub, negated) => AlikeInnerSets(sub, q.subquery, db);
    case _ =>
  }

  lemma {:induction false} AlikeOperands(ps: seq<Json>, qs: seq<Json>, table: string, row: NamedRow, db: Db)
    requires forall c | c in ps :: exists d | d in qs :: Alike(c, d)
    requires forall d | d in qs :: exists c | c in ps :: Alike(c, d)
    ensures forall v :: v in Meanings(ps, table, row, db) <==> v in Meanings(qs, table, row, db)
    decreases ps, 0
  {
    forall c, d | c in ps && d in qs && Alike(c, d)
      ensures Meaning(c, table, row, db) == Meaning(d, table, row, db)
    {
      AlikeMeansEqual(c, d, table, row, db);
    }
    MeaningsMembers(ps, table, row, db);
    MeaningsMembers(qs, table, row, db);
  }

  lemma MeaningsMembers(ps: seq<Json>, table: string, row: NamedRow, db: Db)
    ensures forall v :: v in Meanings(ps, table, row, db) <==> exists c | c in ps :: Meaning(c, table, row, db) == v
  {
    var vs := Meanings(ps, table, row, db);
    forall v
      ensures v in vs <==> exists c | c in ps :: Meaning(c, table, row, db) == v
    {
      if v in vs {
        var i :| 0 <= i < |vs| && vs[i] == v;
        assert ps[i] in ps;
      }
      if c :| c in ps && Meaning(c, table, row, db) == v {
        var i :| 0 <= i < |ps| && ps[i] == c;
        assert vs[i] == v;
      }
    }
  }

  lemma {:induction false} AlikeInnerSets(s: Subquery, t: Subquery, db: Db)
    requires AlikeSub(s, t)
    ensures InnerSet(s, db) == InnerSet(t, db)
    decreases s, 0
  {
    if s.where_.Some? {
      forall r
        ensures Meaning(s.where_.value, s.table, r, db) == Meaning(t.where_.value, t.table, r, db)
      {
        AlikeMeansEqual(s.where_.value, t.where_.value, s.table, r, db);
      }
    }
  }

  /** Equal canonical text means equal truth values on every row of every database. */
  lemma CanonIsSound(p: Json, q: Json)
    requires Clean(p) && Clean(q) && Canon(p) == Canon(q)
    ensures forall table, row, db :: Meaning(p, table, row, db) == Meaning(q, table, row, db)
  {
    ReadBack(p, q, "", "");
    forall table, row, db
      ensures Meaning(p, table, row, db) == Meaning(q, table, row, db)
    {
      AlikeMeansEqual(p, q, table, row, db);
    }
  }

  /** Two subqueries with one signature always have the same value set, so one node can serve both. */
  lemma SigIsSound(s: Subquery, t: Subquery)
    requires CleanSub(s) && CleanSub(t) && Sig(s) == Sig(t)
    ensures forall db :: InnerSet(s, db) == InnerSet(t, db)
  {
    SigReadBack(s, t, "", "");
    forall db
      ensures InnerSet(s, db) == InnerSet(t, db)
    {
      AlikeInnerSets(s, t, db);
    }
  }
}
