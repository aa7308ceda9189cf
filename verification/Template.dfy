/**
 Subquery templates: the literals of the top-level equalities of an inner WHERE are lifted out as a
 bind, the rest stays as a residual under a canonical key, so that subqueries differing only in those
 literals share one template.
 */
module Template {
  import opened Basics
  import opened Values
  import opened Predicate
  import opened Canonical
  import TextOrder

  type Bind = seq<(string, Lit)>

  datatype Templated = Templated(key: string, bind: Bind, residual: seq<Json>)

  // ---- The steps of the factoring -----------------------------------------------------------------

  /** Top-level conjuncts; a conjunct of a conjunct is still top-level. */
  function Conjuncts(p: Json): seq<Json>
    decreases p, 1
  {
    if p.And? then ConjunctsAll(p.and) else [p]
  }

  function ConjunctsAll(ps: seq<Json>): seq<Json>
    decreases ps, 0
  {
    if ps == [] then [] else Conjuncts(ps[0]) + ConjunctsAll(ps[1..])
  }

  function WhereConjuncts(where_: Option<Json>): seq<Json> {
    if where_.Some? then Conjuncts(where_.value) else []
  }

  function InsertByCanon(x: Json, s: seq<Json>): (r: seq<Json>)
    ensures multiset(r) == multiset(s) + multiset{x}
  {
    if s == [] || TextOrder.Le(Canon(x), Canon(s[0])) then [x] + s
    else
      assert s == [s[0]] + s[1..];
      [s[0]] + InsertByCanon(x, s[1..])
  }

  /** Stable sort by canonical text. */
  function SortByCanon(s: seq<Json>): (r: seq<Json>)
    ensures multiset(r) == multiset(s)
  {
    if s == [] then []
    else
      assert s == [s[0]] + s[1..];
      InsertByCanon(s[0], SortByCanon(s[1..]))
  }

  predicate Binds(bind: Bind, col: string) {
    exists i | 0 <= i < |bind| :: bind[i].0 == col
  }

  predicate Liftable(p: Json, lifted: Bind) {
    p.Leaf? && p.op == Eq && !p.value.JNull? && !Binds(lifted, p.col)
  }

  /** The lifting loop over the conjuncts still to visit. */
  function Lift(flat: seq<Json>, lifted: Bind, residual: seq<Json>): (Bind, seq<Json>) {
    if flat == [] then (lifted, residual)
    else if Liftable(flat[0], lifted) then Lift(flat[1..], lifted + [(flat[0].col, flat[0].value)], residual)
    else Lift(flat[1..], lifted, residual + [flat[0]])
  }

  function InsertByName(x: (string, Lit), s: Bind): (r: Bind)
    ensures multiset(r) == multiset(s) + multiset{x}
  {
    if s == [] || TextOrder.Le(x.0, s[0].0) then [x] + s
    else
      assert s == [s[0]] + s[1..];
      [s[0]] + InsertByName(x, s[1..])
  }

  function SortByName(s: Bind): (r: Bind)
    ensures multiset(r) == multiset(s)
  {
    if s == [] then []
    else
      assert s == [s[0]] + s[1..];
      InsertByName(s[0], SortByName(s[1..]))
  }

  function Names(bind: Bind): (names: seq<string>)
    ensures |names| == |bind| && forall i | 0 <= i < |bind| :: names[i] == bind[i].0
  {
    seq(|bind|, i requires 0 <= i < |bind| => bind[i].0)
  }

  function KeyText(table: string, project: string, cols: string, rest: string): string {
    SigText(table, project, "P(" + cols + ")|A(" + rest + [')'])
  }

  function Lifted(sub: Subquery): (Bind, seq<Json>) {
    Lift(SortByCanon(WhereConjuncts(sub.where_)), [], [])
  }

  function TemplateOf(sub: Subquery): Templated {
    var (lifted, residual) := Lifted(sub);
    var bind := SortByName(lifted);
    Templated(
      KeyText(sub.table, sub.project, Join(Names(bind)), Join(TextOrder.Sort(CanonAll(residual)))),
      bind, residual)
  }

  method SubqueryTemplate(sub: Subquery) returns (t: Templated)
    ensures t == TemplateOf(sub)
  {
    var flat := SortByCanon(WhereConjuncts(sub.where_));
    var lifted: Bind, residual: seq<Json> := [], [];
    var i := 0;
    assert flat[0..] == flat;
    while i < |flat|
      invariant i <= |flat|
      invariant Lift(flat[i..], lifted, residual) == Lifted(sub)
    {
      assert flat[i..][0] == flat[i] && flat[i..][1..] == flat[i + 1..];
      var p := flat[i];
      if p.Leaf? && p.op == Eq && !p.value.JNull? && !Binds(lifted, p.col) {
        lifted := lifted + [(p.col, p.value)];
      } else {
        residual := residual + [p];
      }
      i := i + 1;
    }
    var bind := SortByName(lifted);
    var texts := TextOrder.Sort(CanonAll(residual));
    t := Templated(KeyText(sub.table, sub.project, Join(Names(bind)), Join(texts)), bind, residual);
  }

  // ---- The conjuncts ------------------------------------------------------------------------------

  /** How often `q` stands in `p` with nothing but ANDs above it. */
  function Occurrences(q: Json, p: Json): nat
    decreases p, 1
  {
    match p
    case And(ps) => OccurrencesAll(q, ps)
    case _ => if q == p then 1 else 0
  }

  function OccurrencesAll(q: Json, ps: seq<Json>): nat
    decreases ps, 0
  {
    if ps == [] then 0
    else
      var last := |ps| - 1;
      OccurrencesAll(q, ps[..last]) + Occurrences(q, ps[last])
  }

  lemma {:induction false} OccurrencesHead(q: Json, ps: seq<Json>)
    requires ps != []
    ensures OccurrencesAll(q, ps) == Occurrences(q, ps[0]) + OccurrencesAll(q, ps[1..])
    decreases |ps|
  {
    var last := |ps| - 1;
    if last > 0 {
      OccurrencesHead(q, ps[..last]);
      assert ps[..last][1..] == ps[1..][..last - 1] && ps[1..][last - 1] == ps[last];
    } else {
      assert ps[..0] == [] && ps[1..] == [];
    }
  }

  /** The conjuncts are the clauses below ANDs alone, each as often as it stands there; none is an AND. */
  lemma {:induction false} ConjunctsAre(p: Json, q: Json)
    ensures multiset(Conjuncts(p))[q] == Occurrences(q, p)
    ensures q in Conjuncts(p) ==> !q.And?
    decreases p, 1
  {
    if p.And? {
      ConjunctsAllAre(p.and, q);
    }
  }

  lemma {:induction false} ConjunctsAllAre(ps: seq<Json>, q: Json)
    ensures multiset(ConjunctsAll(ps))[q] == OccurrencesAll(q, ps)
    ensures q in ConjunctsAll(ps) ==> !q.And?
    decreases ps, 0
  {
    if ps != [] {
      ConjunctsAre(ps[0], q);
      ConjunctsAllAre(ps[1..], q);
      OccurrencesHead(q, ps);
    }
  }

  // ---- The factored form means what the WHERE means -----------------------------------------------

  function BindLeaves(bind: Bind): (leaves: seq<Json>)
    ensures |leaves| == |bind| && forall i | 0 <= i < |bind| :: leaves[i] == Leaf(bind[i].0, Eq, bind[i].1)
  {
    seq(|bind|, i requires 0 <= i < |bind| => Leaf(bind[i].0, Eq, bind[i].1))
  }

  function WhereMeaning(where_: Option<Json>, table: string, row: NamedRow, db: Db): Tri {
    if where_.Some? then Meaning(where_.value, table, row, db) else True
  }

  lemma AllOfSameMembers(a: seq<Tri>, b: seq<Tri>)
    requires forall v :: v in a <==> v in b
    ensures AllOf(a) == AllOf(b)
  {
  }

  lemma {:induction false} MeaningsConcat(ps: seq<Json>, qs: seq<Json>, table: string, row: NamedRow, db: Db)
    ensures Meanings(ps + qs, table, row, db) == Meanings(ps, table, row, db) + Meanings(qs, table, row, db)
  {
  }

  lemma AllOfConcat(a: seq<Tri>, b: seq<Tri>)
    ensures AllOf(a + b) == AllOf([AllOf(a), AllOf(b)])
  {
    assert False in a + b <==> False in a || False in b;
    assert Unknown in a + b <==> Unknown in a || Unknown in b;
    assert forall x, y: Tri, v :: v in [x, y] <==> v == x || v == y;
  }

  lemma {:induction false} FlatteningKeepsMeaning(p: Json, table: string, row: NamedRow, db: Db)
    ensures AllOf(Meanings(Conjuncts(p), table, row, db)) == Meaning(p, table, row, db)
    decreases p, 1
  {
    if p.And? {
      FlatteningAll(p.and, table, row, db);
    } else {
      var v := Meaning(p, table, row, db);
      assert Meanings([p], table, row, db) == [v];
    }
  }

  lemma {:induction false} FlatteningAll(ps: seq<Json>, table: string, row: NamedRow, db: Db)
    ensures AllOf(Meanings(ConjunctsAll(ps), table, row, db)) == AllOf(Meanings(ps, table, row, db))
    decreases ps, 0
  {
    if ps != [] {
      FlatteningKeepsMeaning(ps[0], table, row, db);
      FlatteningAll(ps[1..], table, row, db);
      MeaningsConcat(Conjuncts(ps[0]), ConjunctsAll(ps[1..]), table, row, db);
      var a, b := Meanings(Conjuncts(ps[0]), table, row, db), Meanings(ConjunctsAll(ps[1..]), table, row, db);
      AllOfConcat(a, b);
      var v, vs := Meaning(ps[0], table, row, db), Meanings(ps[1..], table, row, db);
      assert Meanings(ps, table, row, db) == [v] + vs;
      AllOfConcat([v], vs);
      assert AllOf([v]) == v;
    }
  }

  /** The lifting loop only sorts the conjuncts into two piles. */
  lemma {:induction false} LiftPartitions(flat: seq<Json>, lifted: Bind, residual: seq<Json>)
    ensures var (l, r) := Lift(flat, lifted, residual);
            multiset(BindLeaves(l)) + multiset(r)
            == multiset(BindLeaves(lifted)) + multiset(residual) + multiset(flat)
  {
    if flat != [] {
      assert flat == [flat[0]] + flat[1..];
      if Liftable(flat[0], lifted) {
        var more := lifted + [(flat[0].col, flat[0].value)];
        assert BindLeaves(more) == BindLeaves(lifted) + [flat[0]];
        LiftPartitions(flat[1..], more, residual);
      } else {
        LiftPartitions(flat[1..], lifted, residual + [flat[0]]);
      }
    }
  }

  lemma BindLeavesCons(x: (string, Lit), s: Bind)
    ensures multiset(BindLeaves([x] + s)) == multiset{Leaf(x.0, Eq, x.1)} + multiset(BindLeaves(s))
  {
    assert BindLeaves([x] + s) == [Leaf(x.0, Eq, x.1)] + BindLeaves(s);
  }

  lemma {:induction false} BindLeavesInsert(x: (string, Lit), s: Bind)
    ensures multiset(BindLeaves(InsertByName(x, s))) == multiset(BindLeaves(s)) + multiset{Leaf(x.0, Eq, x.1)}
  {
    if s == [] || TextOrder.Le(x.0, s[0].0) {
      BindLeavesCons(x, s);
    } else {
      BindLeavesInsert(x, s[1..]);
      BindLeavesCons(s[0], InsertByName(x, s[1..]));
      BindLeavesCons(s[0], s[1..]);
      assert s == [s[0]] + s[1..];
    }
  }

  lemma {:induction false} BindLeavesSort(s: Bind)
    ensures multiset(BindLeaves(SortByName(s))) == multiset(BindLeaves(s))
  {
    if s != [] {
      BindLeavesSort(s[1..]);
      BindLeavesInsert(s[0], SortByName(s[1..]));
      BindLeavesCons(s[0], s[1..]);
      assert s == [s[0]] + s[1..];
    }
  }

  lemma TemplatePartitions(sub: Subquery)
    ensures var t := TemplateOf(sub);
            multiset(BindLeaves(t.bind) + t.residual) == multiset(WhereConjuncts(sub.where_))
  {
    var (lifted, residual) := Lifted(sub);
    LiftPartitions(SortByCanon(WhereConjuncts(sub.where_)), [], []);
    assert BindLeaves([]) == [];
    BindLeavesSort(lifted);
  }

  lemma MeaningsOfPermutation(ps: seq<Json>, qs: seq<Json>, table: string, row: NamedRow, db: Db)
    requires multiset(ps) == multiset(qs)
    ensures AllOf(Meanings(ps, table, row, db)) == AllOf(Meanings(qs, table, row, db))
  {
    MeaningsMembers(ps, table, row, db);
    MeaningsMembers(qs, table, row, db);
    forall c
      ensures c in ps <==> c in qs
    {
      assert c in ps <==> c in multiset(ps);
      assert c in qs <==> c in multiset(qs);
    }
    AllOfSameMembers(Meanings(ps, table, row, db), Meanings(qs, table, row, db));
  }

  lemma PartitionKeepsMeaning(where_: Option<Json>, bind: Bind, residual: seq<Json>, table: string, row: NamedRow, db: Db)
    requires multiset(BindLeaves(bind) + residual) == multiset(WhereConjuncts(where_))
    ensures AllOf(Meanings(BindLeaves(bind) + residual, table, row, db)) == WhereMeaning(where_, table, row, db)
  {
    MeaningsOfPermutation(BindLeaves(bind) + residual, WhereConjuncts(where_), table, row, db);
    if where_.Some? {
      FlatteningKeepsMeaning(where_.value, table, row, db);
    }
  }

  /** The AND of the lifted equalities and the residual has the WHERE's own truth value, TRUE, FALSE or
      UNKNOWN, on every row. */
  lemma TemplateKeepsMeaning(sub: Subquery, row: NamedRow, db: Db)
    ensures var t := TemplateOf(sub);
            Meaning(Json.And(BindLeaves(t.bind) + t.residual), sub.table, row, db)
            == WhereMeaning(sub.where_, sub.table, row, db)
  {
    TemplatePartitions(sub);
    PartitionKeepsMeaning(sub.where_, TemplateOf(sub).bind, TemplateOf(sub).residual, sub.table, row, db);
  }

  // ---- The order and nesting of ANDs do not matter ------------------------------------------------

  lemma {:induction false} InsertByCanonText(x: Json, s: seq<Json>)
    ensures CanonAll(InsertByCanon(x, s)) == TextOrder.Insert(Canon(x), CanonAll(s))
  {
    if s != [] && !TextOrder.Le(Canon(x), Canon(s[0])) {
      InsertByCanonText(x, s[1..]);
      assert CanonAll(s)[1..] == CanonAll(s[1..]);
    } else {
      assert CanonAll([x] + s) == [Canon(x)] + CanonAll(s);
    }
  }

  lemma {:induction false} SortByCanonText(s: seq<Json>)
    ensures CanonAll(SortByCanon(s)) == TextOrder.Sort(CanonAll(s))
  {
    if s != [] {
      SortByCanonText(s[1..]);
      InsertByCanonText(s[0], SortByCanon(s[1..]));
      assert CanonAll(s)[1..] == CanonAll(s[1..]);
    }
  }

  lemma SameTextSameLeaf(p: Json, q: Json)
    requires Clean(p) && Clean(q) && Canon(p) == Canon(q)
    ensures p.Leaf? <==> q.Leaf?
    ensures p.Leaf? ==> p == q
  {
    ReadBack(p, q, "", "");
  }

  lemma {:induction false} LiftFollowsText(xs: seq<Json>, ys: seq<Json>, lifted: Bind, r: seq<Json>, s: seq<Json>)
    requires CleanAll(xs) && CleanAll(ys)
    requires CanonAll(xs) == CanonAll(ys) && CanonAll(r) == CanonAll(s)
    ensures Lift(xs, lifted, r).0 == Lift(ys, lifted, s).0
    ensures CanonAll(Lift(xs, lifted, r).1) == CanonAll(Lift(ys, lifted, s).1)
  {
    if xs != [] {
      assert |xs| == |CanonAll(xs)| == |ys|;
      assert xs[0] in xs && ys[0] in ys;
      SameTextSameLeaf(xs[0], ys[0]);
      assert CanonAll(xs)[1..] == CanonAll(xs[1..]) && CanonAll(ys)[1..] == CanonAll(ys[1..]);
      assert CleanAll(xs[1..]) && CleanAll(ys[1..]);
      if Liftable(xs[0], lifted) {
        LiftFollowsText(xs[1..], ys[1..], lifted + [(xs[0].col, xs[0].value)], r, s);
      } else {
        assert CanonAll(r + [xs[0]]) == CanonAll(r) + [Canon(xs[0])];
        assert CanonAll(s + [ys[0]]) == CanonAll(s) + [Canon(ys[0])];
        LiftFollowsText(xs[1..], ys[1..], lifted, r + [xs[0]], s + [ys[0]]);
      }
    } else {
      assert |ys| == |CanonAll(ys)| == 0;
    }
  }

  lemma {:induction false} ConjunctsClean(p: Json)
    requires Clean(p)
    ensures CleanAll(Conjuncts(p))
    decreases p, 1
  {
    if p.And? {
      ConjunctsAllClean(p.and);
    }
  }

  lemma {:induction false} ConjunctsAllClean(ps: seq<Json>)
    requires CleanAll(ps)
    ensures CleanAll(ConjunctsAll(ps))
    decreases ps, 0
  {
    if ps != [] {
      assert ps[0] in ps && forall q | q in ps[1..] :: q in ps;
      ConjunctsClean(ps[0]);
      ConjunctsAllClean(ps[1..]);
    }
  }

  lemma CleanPermutation(ps: seq<Json>, qs: seq<Json>)
    requires CleanAll(ps) && multiset(qs) <= multiset(ps)
    ensures CleanAll(qs)
  {
    forall q | q in qs
      ensures Clean(q)
    {
      assert q in multiset(qs);
      assert q in multiset(ps);
      assert q in ps;
    }
  }

  /** Subqueries whose top-level conjuncts have the same canonical texts, in whatever order and nesting
      of ANDs, have one template key and one bind. */
  lemma TemplateIgnoresOrder(s: Subquery, t: Subquery)
    requires CleanSub(s) && CleanSub(t) && s.table == t.table && s.project == t.project
    requires multiset(CanonAll(WhereConjuncts(s.where_))) == multiset(CanonAll(WhereConjuncts(t.where_)))
    ensures TemplateOf(s).key == TemplateOf(t).key && TemplateOf(s).bind == TemplateOf(t).bind
  {
    var xs, ys := WhereConjuncts(s.where_), WhereConjuncts(t.where_);
    if s.where_.Some? { ConjunctsClean(s.where_.value); }
    if t.where_.Some? { ConjunctsClean(t.where_.value); }
    SortByCanonText(xs);
    SortByCanonText(ys);
    TextOrder.SortIgnoresOrder(CanonAll(xs), CanonAll(ys));
    CleanPermutation(xs, SortByCanon(xs));
    CleanPermutation(ys, SortByCanon(ys));
    LiftFollowsText(SortByCanon(xs), SortByCanon(ys), [], [], []);
  }

  /** In particular: shuffling the operands of an AND, or writing some of them as an AND of their own. */
  lemma ShufflingKeepsTemplate(table: string, project: string, p: Json, q: Json)
    requires CleanSub(Subquery(table, project, Some(p))) && CleanSub(Subquery(table, project, Some(q)))
    requires multiset(Conjuncts(p)) == multiset(Conjuncts(q))
    ensures TemplateOf(Subquery(table, project, Some(p))).key == TemplateOf(Subquery(table, project, Some(q))).key
    ensures TemplateOf(Subquery(table, project, Some(p))).bind == TemplateOf(Subquery(table, project, Some(q))).bind
  {
    CanonOfPermutation(Conjuncts(p), Conjuncts(q));
    TemplateIgnoresOrder(Subquery(table, project, Some(p)), Subquery(table, project, Some(q)));
  }

  // ---- What is lifted -----------------------------------------------------------------------------

  /** An equality of column `c` with a literal that is not NULL. */
  predicate EqualityOn(p: Json, c: string) {
    p.Leaf? && p.op == Eq && p.col == c && p.value != JNull
  }

  /** `flat[k]` is the first such equality on its column. */
  predicate FirstOn(flat: seq<Json>, k: nat, c: string) {
    && k < |flat| && EqualityOn(flat[k], c)
    && forall j | 0 <= j < k :: !EqualityOn(flat[j], c)
  }

  ghost predicate DistinctNames(bind: Bind) {
    forall i, j | 0 <= i < j < |bind| :: bind[i].0 != bind[j].0
  }

  lemma {:induction false} LiftKeepsDistinct(flat: seq<Json>, lifted: Bind, residual: seq<Json>)
    requires DistinctNames(lifted)
    ensures DistinctNames(Lift(flat, lifted, residual).0)
  {
    if flat != [] {
      if Liftable(flat[0], lifted) {
        LiftKeepsDistinct(flat[1..], lifted + [(flat[0].col, flat[0].value)], residual);
      } else {
        LiftKeepsDistinct(flat[1..], lifted, residual + [flat[0]]);
      }
    }
  }

  lemma BindsMore(lifted: Bind, x: (string, Lit), c: string)
    ensures Binds(lifted + [x], c) <==> Binds(lifted, c) || x.0 == c
  {
    assert (lifted + [x])[|lifted|] == x;
    assert forall i | 0 <= i < |lifted| :: (lifted + [x])[i] == lifted[i];
  }

  /** A column is bound exactly if it was before or if one of the conjuncts is an equality on it. */
  lemma {:induction false} LiftBinds(flat: seq<Json>, lifted: Bind, residual: seq<Json>, c: string)
    ensures Binds(Lift(flat, lifted, residual).0, c)
            <==> Binds(lifted, c) || exists k :: 0 <= k < |flat| && EqualityOn(flat[k], c)
  {
    if flat != [] {
      assert forall k | 0 < k < |flat| :: flat[k] == flat[1..][k - 1];
      assert (exists k :: 0 <= k < |flat| && EqualityOn(flat[k], c))
        <==> EqualityOn(flat[0], c) || exists k :: 0 <= k < |flat[1..]| && EqualityOn(flat[1..][k], c);
      if Liftable(flat[0], lifted) {
        BindsMore(lifted, (flat[0].col, flat[0].value), c);
        LiftBinds(flat[1..], lifted + [(flat[0].col, flat[0].value)], residual, c);
      } else {
        LiftBinds(flat[1..], lifted, residual + [flat[0]], c);
      }
    }
  }

  /** A pair of a column not bound before comes from the first equality on that column. */
  lemma {:induction false} LiftTakesFirst(flat: seq<Json>, lifted: Bind, residual: seq<Json>, x: (string, Lit))
      returns (k: nat)
    requires x in Lift(flat, lifted, residual).0 && !Binds(lifted, x.0)
    ensures FirstOn(flat, k, x.0) && flat[k].value == x.1
  {
    if flat == [] {
      assert false;
    } else if Liftable(flat[0], lifted) {
      var y := (flat[0].col, flat[0].value);
      BindsMore(lifted, y, x.0);
      if y.0 == x.0 {
        LiftKeepsPair(flat[1..], lifted, y, residual, x);
        k := 0;
      } else {
        k := LiftTakesFirst(flat[1..], lifted + [y], residual, x);
        k := k + 1;
      }
    } else {
      k := LiftTakesFirst(flat[1..], lifted, residual + [flat[0]], x);
      k := k + 1;
    }
  }

  lemma {:induction false} LiftKeepsPrefix(flat: seq<Json>, lifted: Bind, residual: seq<Json>)
    ensures lifted <= Lift(flat, lifted, residual).0
    ensures forall i | |lifted| <= i < |Lift(flat, lifted, residual).0| ::
              !Binds(lifted, Lift(flat, lifted, residual).0[i].0)
  {
    if flat != [] {
      if Liftable(flat[0], lifted) {
        var y := (flat[0].col, flat[0].value);
        LiftKeepsPrefix(flat[1..], lifted + [y], residual);
        forall c
          ensures Binds(lifted, c) ==> Binds(lifted + [y], c)
        {
          BindsMore(lifted, y, c);
        }
      } else {
        LiftKeepsPrefix(flat[1..], lifted, residual + [flat[0]]);
      }
    }
  }

  lemma LiftKeepsPair(flat: seq<Json>, lifted: Bind, y: (string, Lit), residual: seq<Json>, x: (string, Lit))
    requires x in Lift(flat, lifted + [y], residual).0 && !Binds(lifted, x.0) && x.0 == y.0
    ensures x == y
  {
    var l := Lift(flat, lifted + [y], residual).0;
    LiftKeepsPrefix(flat, lifted + [y], residual);
    var i :| 0 <= i < |l| && l[i] == x;
    BindsMore(lifted, y, x.0);
    assert i < |lifted| + 1;
    assert l[i] == (lifted + [y])[i];
  }

  // ---- The bind -----------------------------------------------------------------------------------

  /** Earlier names before later ones, none twice. */
  ghost predicate Increasing(names: seq<string>) {
    forall i, j | 0 <= i < j < |names| :: TextOrder.Le(names[i], names[j]) && names[i] != names[j]
  }

  lemma {:induction false} NamesInsert(x: (string, Lit), s: Bind)
    ensures Names(InsertByName(x, s)) == TextOrder.Insert(x.0, Names(s))
  {
    if s != [] && !TextOrder.Le(x.0, s[0].0) {
      NamesInsert(x, s[1..]);
      assert Names(s)[1..] == Names(s[1..]);
      assert Names(InsertByName(x, s)) == [s[0].0] + Names(InsertByName(x, s[1..]));
    } else {
      assert Names([x] + s) == [x.0] + Names(s);
    }
  }

  lemma {:induction false} NamesSort(s: Bind)
    ensures Names(SortByName(s)) == TextOrder.Sort(Names(s))
  {
    if s != [] {
      NamesSort(s[1..]);
      NamesInsert(s[0], SortByName(s[1..]));
      assert Names(s)[1..] == Names(s[1..]);
    }
  }

  lemma SortedNames(s: Bind)
    requires DistinctNames(s)
    ensures Increasing(Names(SortByName(s)))
  {
    NamesSort(s);
    TextOrder.SortIncreasing(Names(s));
  }

  lemma SamePairs(s: Bind, x: (string, Lit))
    ensures x in SortByName(s) <==> x in s
  {
    assert x in s <==> x in multiset(s);
    assert x in SortByName(s) <==> x in multiset(SortByName(s));
  }

  lemma SameConjuncts(cs: seq<Json>, p: Json)
    ensures p in SortByCanon(cs) <==> p in cs
  {
    assert p in cs <==> p in multiset(cs);
    assert p in SortByCanon(cs) <==> p in multiset(SortByCanon(cs));
  }

  /** The names of the bind increase, and they are the columns with a top-level equality with a literal
      that is not NULL. */
  lemma BindNames(sub: Subquery)
    ensures Increasing(Names(TemplateOf(sub).bind))
    ensures forall c :: c in Names(TemplateOf(sub).bind)
                    <==> exists p :: p in WhereConjuncts(sub.where_) && EqualityOn(p, c)
  {
    var cs := WhereConjuncts(sub.where_);
    var flat, bind := SortByCanon(cs), TemplateOf(sub).bind;
    var lifted := Lifted(sub).0;
    LiftKeepsDistinct(flat, [], []);
    SortedNames(lifted);
    forall c
      ensures c in Names(bind) <==> exists p :: p in cs && EqualityOn(p, c)
    {
      NameBound(lifted, c);
      LiftBinds(flat, [], [], c);
      SomeEquality(cs, c);
    }
  }

  lemma NameBound(s: Bind, c: string)
    ensures c in Names(SortByName(s)) <==> Binds(s, c)
  {
    NamesSort(s);
    assert c in Names(SortByName(s)) <==> c in multiset(TextOrder.Sort(Names(s)));
    assert c in Names(s) <==> c in multiset(Names(s));
    if Binds(s, c) {
      var i :| 0 <= i < |s| && s[i].0 == c;
      assert Names(s)[i] == c;
    }
  }

  lemma SomeEquality(cs: seq<Json>, c: string)
    ensures (exists k :: 0 <= k < |SortByCanon(cs)| && EqualityOn(SortByCanon(cs)[k], c))
            <==> exists p :: p in cs && EqualityOn(p, c)
  {
    var flat := SortByCanon(cs);
    if k :| 0 <= k < |flat| && EqualityOn(flat[k], c) {
      SameConjuncts(cs, flat[k]);
    }
    if p :| p in cs && EqualityOn(p, c) {
      SameConjuncts(cs, p);
      var k :| 0 <= k < |flat| && flat[k] == p;
    }
  }

  /** `Leaf(c, Eq, v)` is among the conjuncts, and no equality on `c` among them has a lesser text. */
  ghost predicate LeastOn(cs: seq<Json>, c: string, v: Lit) {
    && v != JNull && Leaf(c, Eq, v) in cs
    && forall w :: w != JNull && Leaf(c, Eq, w) in cs ==>
         TextOrder.Le(Canon(Leaf(c, Eq, v)), Canon(Leaf(c, Eq, w)))
  }

  lemma FirstIsLeast(cs: seq<Json>, k: nat, c: string)
    requires FirstOn(SortByCanon(cs), k, c)
    ensures LeastOn(cs, c, SortByCanon(cs)[k].value)
  {
    var flat := SortByCanon(cs);
    assert flat[k] == Leaf(c, Eq, flat[k].value);
    SameConjuncts(cs, flat[k]);
    forall w | w != JNull && Leaf(c, Eq, w) in cs
      ensures TextOrder.Le(Canon(flat[k]), Canon(Leaf(c, Eq, w)))
    {
      SameConjuncts(cs, Leaf(c, Eq, w));
      var j :| 0 <= j < |flat| && flat[j] == Leaf(c, Eq, w);
      assert EqualityOn(flat[j], c);
      CanonInOrder(cs, k, j);
    }
  }

  lemma CanonInOrder(cs: seq<Json>, k: nat, j: nat)
    requires k <= j < |SortByCanon(cs)|
    ensures TextOrder.Le(Canon(SortByCanon(cs)[k]), Canon(SortByCanon(cs)[j]))
  {
    SortByCanonText(cs);
    TextOrder.SortSorted(CanonAll(cs));
    TextOrder.SortedAt(CanonAll(SortByCanon(cs)), k, j);
  }

  lemma BoundIsLeast(sub: Subquery, c: string, v: Lit)
    requires (c, v) in TemplateOf(sub).bind
    ensures LeastOn(WhereConjuncts(sub.where_), c, v)
  {
    var flat := SortByCanon(WhereConjuncts(sub.where_));
    SamePairs(Lifted(sub).0, (c, v));
    var k := LiftTakesFirst(flat, [], [], (c, v));
    FirstIsLeast(WhereConjuncts(sub.where_), k, c);
  }

  /** The bind holds, for each column with a top-level equality with a literal that is not NULL, the
      literal of the equality whose canonical text comes first, and nothing else. */
  lemma BindIsLeast(sub: Subquery, c: string, v: Lit)
    requires CleanSub(sub)
    ensures (c, v) in TemplateOf(sub).bind <==> LeastOn(WhereConjuncts(sub.where_), c, v)
  {
    var cs, bind := WhereConjuncts(sub.where_), TemplateOf(sub).bind;
    if (c, v) in bind {
      BoundIsLeast(sub, c, v);
    }
    if LeastOn(cs, c, v) {
      BindNames(sub);
      assert EqualityOn(Leaf(c, Eq, v), c);
      assert c in Names(bind);
      var i :| 0 <= i < |Names(bind)| && Names(bind)[i] == c;
      var w := bind[i].1;
      assert (c, w) in bind;
      BoundIsLeast(sub, c, w);
      TextOrder.LeTotal(Canon(Leaf(c, Eq, v)), Canon(Leaf(c, Eq, w)));
      ConjunctsClean(sub.where_.value);
      SameTextSameLeaf(Leaf(c, Eq, v), Leaf(c, Eq, w));
    }
  }

  // ---- Subqueries that differ in lifted literals only ---------------------------------------------

  /** The conjuncts are the same one by one, except that equalities which are the only ones on their
      column may have other literals (not NULL). */
  ghost predicate SameButLiterals(cs: seq<Json>, ds: seq<Json>) {
    && |cs| == |ds|
    && forall i: nat | i < |cs| :: cs[i] == ds[i] || Relabelled(cs, ds, i)
  }

  ghost predicate Relabelled(cs: seq<Json>, ds: seq<Json>, i: nat)
    requires i < |cs| == |ds|
  {
    cs[i].Leaf? && AloneOn(cs, i, cs[i].col) && EqualityOn(ds[i], cs[i].col)
  }

  /** The conjunct at `i` is an equality on `c` and no other one is. */
  ghost predicate AloneOn(cs: seq<Json>, i: nat, c: string) {
    && i < |cs| && EqualityOn(cs[i], c)
    && forall k: nat | k < |cs| && k != i :: !EqualityOn(cs[k], c)
  }

  lemma SameButLiteralsBack(cs: seq<Json>, ds: seq<Json>)
    requires SameButLiterals(cs, ds)
    ensures SameButLiterals(ds, cs)
  {
    forall i: nat | i < |ds| && ds[i] != cs[i]
      ensures Relabelled(ds, cs, i)
    {
      assert Relabelled(cs, ds, i);
      forall k: nat | k < |ds| && k != i
        ensures !EqualityOn(ds[k], ds[i].col)
      {
        assert cs[k] == ds[k] || Relabelled(cs, ds, k);
      }
    }
  }

  lemma {:induction false} SameCount(cs: seq<Json>, ds: seq<Json>, x: Json)
    requires |cs| == |ds| && forall i | 0 <= i < |cs| :: cs[i] == x <==> ds[i] == x
    ensures multiset(cs)[x] == multiset(ds)[x]
  {
    if cs != [] {
      assert cs == [cs[0]] + cs[1..] && ds == [ds[0]] + ds[1..];
      SameCount(cs[1..], ds[1..], x);
    }
  }

  lemma BindLeavesMember(bind: Bind, x: Json)
    ensures x in BindLeaves(bind) <==> x.Leaf? && x.op == Eq && (x.col, x.value) in bind
  {
    if x in BindLeaves(bind) {
      var i :| 0 <= i < |bind| && BindLeaves(bind)[i] == x;
      assert bind[i] == (x.col, x.value);
    }
    if x.Leaf? && x.op == Eq && (x.col, x.value) in bind {
      var i :| 0 <= i < |bind| && bind[i] == (x.col, x.value);
      assert BindLeaves(bind)[i] == x;
    }
  }

  lemma BindLeavesCount(bind: Bind, x: Json)
    requires DistinctNames(bind)
    ensures multiset(BindLeaves(bind))[x]
            == if x.Leaf? && x.op == Eq && (x.col, x.value) in bind then 1 else 0
  {
    BindLeavesMember(bind, x);
    DistinctCounts(BindLeaves(bind), x);
    assert x in BindLeaves(bind) <==> x in multiset(BindLeaves(bind));
  }

  /** A template's bind and residual, told by the conjuncts they come from. */
  ghost predicate Factors(cs: seq<Json>, bind: Bind, residual: seq<Json>) {
    && multiset(BindLeaves(bind)) + multiset(residual) == multiset(cs)
    && DistinctNames(bind)
    && forall c, v :: (c, v) in bind <==> LeastOn(cs, c, v)
  }

  lemma TemplateFactors(sub: Subquery)
    requires CleanSub(sub)
    ensures Factors(WhereConjuncts(sub.where_), TemplateOf(sub).bind, TemplateOf(sub).residual)
  {
    TemplatePartitions(sub);
    BindNames(sub);
    assert forall i | 0 <= i < |TemplateOf(sub).bind| :: Names(TemplateOf(sub).bind)[i] == TemplateOf(sub).bind[i].0;
    forall c, v
      ensures (c, v) in TemplateOf(sub).bind <==> LeastOn(WhereConjuncts(sub.where_), c, v)
    {
      BindIsLeast(sub, c, v);
    }
  }

  /** How often a clause is left in the residual: as often as it is written, less once if it is lifted. */
  lemma ResidualCount(cs: seq<Json>, bind: Bind, residual: seq<Json>, x: Json)
    requires Factors(cs, bind, residual)
    ensures multiset(residual)[x] == multiset(cs)[x]
              - if x.Leaf? && x.op == Eq && LeastOn(cs, x.col, x.value) then 1 else 0
  {
    BindLeavesCount(bind, x);
    assert (multiset(BindLeaves(bind)) + multiset(residual))[x] == multiset(BindLeaves(bind))[x] + multiset(residual)[x];
  }

  lemma SameNames(s: Subquery, t: Subquery)
    requires SameButLiterals(WhereConjuncts(s.where_), WhereConjuncts(t.where_))
    ensures Names(TemplateOf(s).bind) == Names(TemplateOf(t).bind)
  {
    var cs, ds := WhereConjuncts(s.where_), WhereConjuncts(t.where_);
    BindNames(s);
    BindNames(t);
    SameButLiteralsBack(cs, ds);
    forall c
      ensures c in Names(TemplateOf(s).bind) <==> c in Names(TemplateOf(t).bind)
    {
      if p :| p in cs && EqualityOn(p, c) { FindRelabelled(cs, ds, p, c); }
      if p :| p in ds && EqualityOn(p, c) { FindRelabelled(ds, cs, p, c); }
    }
    TextOrder.IncreasingUnique(Names(TemplateOf(s).bind), Names(TemplateOf(t).bind));
  }

  lemma FindRelabelled(cs: seq<Json>, ds: seq<Json>, p: Json, c: string)
    requires SameButLiterals(cs, ds) && p in cs && EqualityOn(p, c)
    ensures exists q :: q in ds && EqualityOn(q, c)
  {
    var i: nat :| i < |cs| && cs[i] == p;
    assert EqualityOn(ds[i], c) && ds[i] in ds;
  }

  lemma AloneCount(cs: seq<Json>, i: nat, x: Json)
    requires x.Leaf? && EqualityOn(x, x.col) && AloneOn(cs, i, x.col)
    ensures multiset(cs)[x] == if cs[i] == x then 1 else 0
  {
    assert cs == cs[..i] + [cs[i]] + cs[i + 1..];
    assert x !in cs[..i] && x !in cs[i + 1..];
  }

  lemma AloneIsLeast(cs: seq<Json>, i: nat, x: Json)
    requires x.Leaf? && EqualityOn(x, x.col) && AloneOn(cs, i, x.col) && cs[i] == x
    ensures LeastOn(cs, x.col, x.value)
  {
    assert x == Leaf(x.col, Eq, x.value);
    TextOrder.LeTotal(Canon(x), Canon(x));
    forall w | w != JNull && Leaf(x.col, Eq, w) in cs
      ensures w == x.value
    {
      var k: nat :| k < |cs| && cs[k] == Leaf(x.col, Eq, w);
      assert EqualityOn(cs[k], x.col);
    }
  }

  /** No equality is left of a column on which there is no other. */
  lemma AloneIsLifted(cs: seq<Json>, bind: Bind, residual: seq<Json>, i: nat, x: Json)
    requires Factors(cs, bind, residual)
    requires x.Leaf? && EqualityOn(x, x.col) && AloneOn(cs, i, x.col)
    ensures multiset(residual)[x] == 0
  {
    ResidualCount(cs, bind, residual, x);
    AloneCount(cs, i, x);
    if cs[i] == x {
      AloneIsLeast(cs, i, x);
    }
  }

  lemma SameLeast(cs: seq<Json>, ds: seq<Json>, c: string, v: Lit)
    requires |cs| == |ds|
    requires forall i: nat | i < |cs| && (EqualityOn(cs[i], c) || EqualityOn(ds[i], c)) :: cs[i] == ds[i]
    ensures LeastOn(cs, c, v) <==> LeastOn(ds, c, v)
  {
    forall w | w != JNull
      ensures Leaf(c, Eq, w) in cs <==> Leaf(c, Eq, w) in ds
    {
      var p := Leaf(c, Eq, w);
      assert EqualityOn(p, c);
      if p in cs { var i: nat :| i < |cs| && cs[i] == p; assert ds[i] == p; }
      if p in ds { var i: nat :| i < |ds| && ds[i] == p; assert cs[i] == p; }
    }
  }

  lemma SameResidualCount(cs: seq<Json>, ds: seq<Json>, b: Bind, d: Bind, r: seq<Json>, q: seq<Json>, x: Json)
    requires Factors(cs, b, r) && Factors(ds, d, q) && SameButLiterals(cs, ds)
    ensures multiset(r)[x] == multiset(q)[x]
  {
    if i: nat :| i < |cs| && cs[i] != ds[i] && x.Leaf? && EqualityOn(x, x.col) && EqualityOn(cs[i], x.col) {
      SameButLiteralsBack(cs, ds);
      assert Relabelled(cs, ds, i) && Relabelled(ds, cs, i);
      AloneIsLifted(cs, b, r, i, x);
      AloneIsLifted(ds, d, q, i, x);
    } else {
      SameElsewhere(cs, ds, x);
      SameCount(cs, ds, x);
      ResidualCount(cs, b, r, x);
      ResidualCount(ds, d, q, x);
      if x.Leaf? && x.op == Eq && x.value != JNull {
        SameLeast(cs, ds, x.col, x.value);
      }
    }
  }

  lemma SameElsewhere(cs: seq<Json>, ds: seq<Json>, x: Json)
    requires SameButLiterals(cs, ds)
    requires x.Leaf? && EqualityOn(x, x.col) ==>
               forall i: nat | i < |cs| && EqualityOn(cs[i], x.col) :: cs[i] == ds[i]
    ensures forall i: nat | i < |cs| :: cs[i] == x <==> ds[i] == x
    ensures x.Leaf? && EqualityOn(x, x.col) ==>
              forall i: nat | i < |cs| && (EqualityOn(cs[i], x.col) || EqualityOn(ds[i], x.col)) :: cs[i] == ds[i]
  {
    forall i: nat | i < |cs| && cs[i] != ds[i]
      ensures cs[i] != x && ds[i] != x
      ensures x.Leaf? && EqualityOn(x, x.col) ==> !EqualityOn(cs[i], x.col) && !EqualityOn(ds[i], x.col)
    {
      assert Relabelled(cs, ds, i);
    }
  }

  /** Subqueries that differ only in the literals of equalities that are the only ones on their column
      share one template, whatever else their WHEREs hold. */
  lemma TemplateIgnoresLiterals(s: Subquery, t: Subquery)
    requires CleanSub(s) && CleanSub(t) && s.table == t.table && s.project == t.project
    requires SameButLiterals(WhereConjuncts(s.where_), WhereConjuncts(t.where_))
    ensures TemplateOf(s).key == TemplateOf(t).key
  {
    SameNames(s, t);
    TemplateFactors(s);
    TemplateFactors(t);
    SameResiduals(WhereConjuncts(s.where_), WhereConjuncts(t.where_), TemplateOf(s).bind, TemplateOf(t).bind,
                  TemplateOf(s).residual, TemplateOf(t).residual);
  }

  lemma SameResiduals(cs: seq<Json>, ds: seq<Json>, b: Bind, d: Bind, r: seq<Json>, q: seq<Json>)
    requires Factors(cs, b, r) && Factors(ds, d, q) && SameButLiterals(cs, ds)
    ensures TextOrder.Sort(CanonAll(r)) == TextOrder.Sort(CanonAll(q))
  {
    forall x
      ensures multiset(r)[x] == multiset(q)[x]
    {
      SameResidualCount(cs, ds, b, d, r, q, x);
    }
    assert multiset(r) == multiset(q);
    CanonOfPermutation(r, q);
    TextOrder.SortIgnoresOrder(CanonAll(r), CanonAll(q));
  }

  // ---- Sharing a template and a bind means sharing the meaning ------------------------------------

  lemma ReadKeyText(s: string, t: string, a: string, b: string, c: string, d: string, x: string, y: string)
    requires '|' !in s && '|' !in t && '|' !in a && '|' !in b && ')' !in c && ')' !in d
    requires KeyText(s, a, c, x) == KeyText(t, b, d, y)
    ensures s == t && a == b && c == d && x == y
  {
    var p, q := "P(" + c + ")|A(" + x + [')'], "P(" + d + ")|A(" + y + [')'];
    assert KeyText(s, a, c, x) == SigText(s, a, p) + "";
    assert KeyText(t, b, d, y) == SigText(t, b, q) + "";
    ReadSigText(s, t, a, b, p, q, "", "");
    assert p + "" == p && q + "" == q;
    ReadColumns(c, d, x, y);
  }

  lemma ReadColumns(c: string, d: string, x: string, y: string)
    requires ')' !in c && ')' !in d
    requires "P(" + c + ")|A(" + x + [')'] == "P(" + d + ")|A(" + y + [')']
    ensures c == d && x == y
  {
    var p, q := "|A(" + x + [')'], "|A(" + y + [')'];
    assert "P(" + c + ")|A(" + x + [')'] == "P(" + (c + [')'] + p);
    assert "P(" + d + ")|A(" + y + [')'] == "P(" + (d + [')'] + q);
    DropFront("P(", c + [')'] + p, d + [')'] + q);
    SplitAt(c, d, ')', p, q);
    assert p[3..][..|p| - 4] == x && q[3..][..|q| - 4] == y;
  }

  lemma ResidualClean(sub: Subquery)
    requires CleanSub(sub)
    ensures CleanAll(TemplateOf(sub).residual)
  {
    var t := TemplateOf(sub);
    if sub.where_.Some? { ConjunctsClean(sub.where_.value); }
    TemplatePartitions(sub);
    CleanPermutation(WhereConjuncts(sub.where_), t.residual);
  }

  lemma JoinTells(s: seq<string>)
    requires forall x | x in s :: x != "" && ',' !in x
    ensures Join(s) == "" <==> s == []
    ensures ',' in Join(s) <==> |s| > 1
  {
    if s != [] {
      assert s[0] in s;
      assert |s| > 1 ==> Join(s)[|s[0]|] == ',';
    }
  }

  lemma {:induction false} NamesReadBack(s: seq<string>, t: seq<string>)
    requires forall x | x in s :: x != "" && ',' !in x
    requires forall x | x in t :: x != "" && ',' !in x
    requires Join(s) == Join(t)
    ensures s == t
  {
    JoinTells(s);
    JoinTells(t);
    if |s| > 1 {
      assert s[0] in s && t[0] in t;
      var x, y := Join(s[1..]), Join(t[1..]);
      assert s[0] + "," + x == s[0] + [','] + x && t[0] + "," + y == t[0] + [','] + y;
      SplitAt(s[0], t[0], ',', x, y);
      assert forall z | z in s[1..] :: z in s;
      assert forall z | z in t[1..] :: z in t;
      NamesReadBack(s[1..], t[1..]);
      assert s == [s[0]] + s[1..] && t == [t[0]] + t[1..];
    } else if |s| == 1 {
      assert s[0] == t[0];
    }
  }

  lemma {:induction false} JoinHasNone(parts: seq<string>, d: char)
    requires d != ',' && forall x | x in parts :: d !in x
    ensures d !in Join(parts)
  {
    if |parts| > 1 {
      JoinHasNone(parts[1..], d);
    }
  }

  lemma BindNamesClean(sub: Subquery)
    requires CleanSub(sub)
    ensures forall c | c in Names(TemplateOf(sub).bind) :: CleanName(c)
  {
    BindNames(sub);
    if sub.where_.Some? { ConjunctsClean(sub.where_.value); }
    forall c | c in Names(TemplateOf(sub).bind)
      ensures CleanName(c)
    {
      var p :| p in WhereConjuncts(sub.where_) && EqualityOn(p, c);
      assert Clean(p);
    }
  }

  ghost predicate AlikeLists(r: seq<Json>, s: seq<Json>) {
    && (forall c | c in r :: exists d | d in s :: Alike(c, d))
    && (forall d | d in s :: exists c | c in r :: Alike(c, d))
  }

  /** A key tells the table, the projected column, the lifted columns and the residual. */
  lemma SharedKey(s: Subquery, t: Subquery)
    requires CleanSub(s) && CleanSub(t)
    requires TemplateOf(s).key == TemplateOf(t).key
    ensures s.table == t.table && s.project == t.project
    ensures AlikeLists(TemplateOf(s).residual, TemplateOf(t).residual)
    ensures TextOrder.Sort(CanonAll(TemplateOf(s).residual)) == TextOrder.Sort(CanonAll(TemplateOf(t).residual))
    ensures Join(Names(TemplateOf(s).bind)) == Join(Names(TemplateOf(t).bind))
  {
    var u, v := TemplateOf(s), TemplateOf(t);
    ResidualClean(s);
    ResidualClean(t);
    BindNamesClean(s);
    BindNamesClean(t);
    JoinHasNone(Names(u.bind), ')');
    JoinHasNone(Names(v.bind), ')');
    ReadKeyText(s.table, t.table, s.project, t.project, Join(Names(u.bind)), Join(Names(v.bind)),
                Join(TextOrder.Sort(CanonAll(u.residual))), Join(TextOrder.Sort(CanonAll(v.residual))));
    OperandsReadBack(u.residual, v.residual, "", "");
  }

  /** No column has the empty name. */
  ghost predicate ColumnsNamed(sub: Subquery) {
    forall p | p in WhereConjuncts(sub.where_) && p.Leaf? :: p.col != ""
  }

  lemma NamesNamed(sub: Subquery)
    requires CleanSub(sub) && ColumnsNamed(sub)
    ensures forall c | c in Names(TemplateOf(sub).bind) :: c != "" && ',' !in c
  {
    BindNamesClean(sub);
    BindNames(sub);
  }

  /** Two subqueries share a template exactly if they have the table, the projected column, the columns
      of their top-level equalities and the texts of what is not lifted in common. */
  lemma SameKeyIff(s: Subquery, t: Subquery)
    requires CleanSub(s) && CleanSub(t) && ColumnsNamed(s) && ColumnsNamed(t)
    ensures TemplateOf(s).key == TemplateOf(t).key <==>
            && s.table == t.table && s.project == t.project
            && Names(TemplateOf(s).bind) == Names(TemplateOf(t).bind)
            && multiset(CanonAll(TemplateOf(s).residual)) == multiset(CanonAll(TemplateOf(t).residual))
  {
    TextOrder.SortIgnoresOrder(CanonAll(TemplateOf(s).residual), CanonAll(TemplateOf(t).residual));
    if TemplateOf(s).key == TemplateOf(t).key {
      SharedKey(s, t);
      NamesNamed(s);
      NamesNamed(t);
      NamesReadBack(Names(TemplateOf(s).bind), Names(TemplateOf(t).bind));
    }
  }

  lemma SharedMeaning(s: Subquery, t: Subquery, row: NamedRow, db: Db)
    requires s.table == t.table && TemplateOf(s).bind == TemplateOf(t).bind
    requires AlikeLists(TemplateOf(s).residual, TemplateOf(t).residual)
    ensures WhereMeaning(s.where_, s.table, row, db) == WhereMeaning(t.where_, t.table, row, db)
  {
    TemplatePartitions(s);
    TemplatePartitions(t);
    SharedPartition(s.where_, t.where_, TemplateOf(s).bind, TemplateOf(s).residual, TemplateOf(t).residual,
                    s.table, row, db);
  }

  lemma SharedPartition(w: Option<Json>, x: Option<Json>, bind: Bind, r: seq<Json>, s: seq<Json>,
                        table: string, row: NamedRow, db: Db)
    requires multiset(BindLeaves(bind) + r) == multiset(WhereConjuncts(w))
    requires multiset(BindLeaves(bind) + s) == multiset(WhereConjuncts(x))
    requires AlikeLists(r, s)
    ensures WhereMeaning(w, table, row, db) == WhereMeaning(x, table, row, db)
  {
    PartitionKeepsMeaning(w, bind, r, table, row, db);
    PartitionKeepsMeaning(x, bind, s, table, row, db);
    AlikeResiduals(bind, r, s, table, row, db);
  }

  /** Two subqueries with one template key and one bind select the same rows of every database, so one
      shared template entry serves both. */
  lemma TemplateIsSound(s: Subquery, t: Subquery)
    requires CleanSub(s) && CleanSub(t)
    requires TemplateOf(s).key == TemplateOf(t).key && TemplateOf(s).bind == TemplateOf(t).bind
    ensures s.table == t.table && s.project == t.project
    ensures forall row, db :: WhereMeaning(s.where_, s.table, row, db) == WhereMeaning(t.where_, t.table, row, db)
    ensures forall db :: InnerSet(s, db) == InnerSet(t, db)
  {
    SharedKey(s, t);
    forall row, db
      ensures WhereMeaning(s.where_, s.table, row, db) == WhereMeaning(t.where_, t.table, row, db)
    {
      SharedMeaning(s, t, row, db);
    }
    forall db
      ensures InnerSet(s, db) == InnerSet(t, db)
    {
      SameWhereSameSet(s, t, db);
    }
  }

  lemma AlikeResiduals(bind: Bind, r: seq<Json>, s: seq<Json>, table: string, row: NamedRow, db: Db)
    requires AlikeLists(r, s)
    ensures AllOf(Meanings(BindLeaves(bind) + r, table, row, db)) == AllOf(Meanings(BindLeaves(bind) + s, table, row, db))
  {
    AlikeOperands(r, s, table, row, db);
    MeaningsConcat(BindLeaves(bind), r, table, row, db);
    MeaningsConcat(BindLeaves(bind), s, table, row, db);
    AllOfSameMembers(Meanings(BindLeaves(bind) + r, table, row, db), Meanings(BindLeaves(bind) + s, table, row, db));
  }

  lemma SameWhereSameSet(s: Subquery, t: Subquery, db: Db)
    requires s.table == t.table && s.project == t.project
    requires forall row :: WhereMeaning(s.where_, s.table, row, db) == WhereMeaning(t.where_, t.table, row, db)
    ensures InnerSet(s, db) == InnerSet(t, db)
  {
    forall r
      ensures (s.where_.Some? ==> Meaning(s.where_.value, s.table, r, db) == True)
              <==> (t.where_.Some? ==> Meaning(t.where_.value, t.table, r, db) == True)
    {
      assert WhereMeaning(s.where_, s.table, r, db) == WhereMeaning(t.where_, t.table, r, db);
    }
  }
}
