// IS NULL and IS NOT NULL in the SELECT plan. The planner's walk does not look
// inside them, so a column may be pruned, or a conjunct tested, too early; for
// each of these the exact condition under which the answer is still right.
module NullTests {
  import opened Common
  import opened Json
  import opened Sql
  import opened Select
  import opened SelectCorrect
  import opened SelectLimits

  // `b IS NULL` or `b IS NOT NULL`.
  function NullTest(b: string, isNull: bool): Expr {
    if isNull then IsNull(Ident(b)) else IsNotNull(Ident(b))
  }

  ghost predicate AllNull(h: Host, rows: seq<Row>, b: string) {
    forall i :: 0 <= i < |rows| ==> Eval(h, Ident(b), rows[i]) == Null
  }

  // Every row has the columns of the first one.
  predicate Uniform(rows: seq<Row>) {
    forall i :: 0 <= i < |rows| ==> rows[i].Keys == KeysOf(rows)
  }

  // ----- a column pruned before it is tested

  lemma NullTestPlan(h: Host, rows: seq<Row>, b: string, isNull: bool, needed: set<string>)
    ensures var from, e := [FromItem(rows, None)], NullTest(b, isNull);
      && Naive(h, from, Some(e)) == Pass(h, Some(e), rows)
      && Plan(h, from, Some(e), Some(needed)) == Pass(h, Some(e), KeepCols(rows, needed))
  {
    var from, e := [FromItem(rows, None)], NullTest(b, isNull);
    PlainBaseRows(rows);
    NaiveFromBase(h, from, Some(e));
    FilterAll(rows, PassesApplicable(h, [e], KeysOf(rows)));
    assert from[1..] == [];
  }

  // Without its column every row looks null.
  lemma NullTestPruned(h: Host, rows: seq<Row>, b: string, isNull: bool, keep: set<string>)
    requires b !in keep
    ensures Pass(h, Some(NullTest(b, isNull)), RestrictAll(rows, keep)) == if isNull then RestrictAll(rows, keep) else []
  {
    var pruned, w := RestrictAll(rows, keep), WhereTest(h, Some(NullTest(b, isNull)));
    forall row | row in pruned ensures w(row) == isNull {
      var i :| 0 <= i < |pruned| && row == pruned[i];
      assert b !in row && Eval(h, Ident(b), row) == Null;
    }
    if isNull { FilterAll(pruned, w); } else { FilterNone(pruned, w); }
  }

  lemma {:induction false} FilterShorter<T>(s: seq<T>, p: T -> bool)
    ensures |Filter(s, p)| <= |s|
    ensures |Filter(s, p)| == |s| ==> forall i :: 0 <= i < |s| ==> p(s[i])
  {
    if s != [] { FilterShorter(s[1..], p); }
  }

  // IS NULL keeps everything, and IS NOT NULL nothing, exactly when the column
  // is null throughout.
  lemma NullTestAll(h: Host, rows: seq<Row>, b: string, isNull: bool)
    ensures |Pass(h, Some(NullTest(b, isNull)), rows)| == (if isNull then |rows| else 0) <==> AllNull(h, rows, b)
    ensures isNull && AllNull(h, rows, b) ==> Pass(h, Some(NullTest(b, isNull)), rows) == rows
  {
    var w := WhereTest(h, Some(NullTest(b, isNull)));
    if AllNull(h, rows, b) {
      if isNull { FilterAll(rows, w); } else { FilterNone(rows, w); }
    } else if isNull {
      FilterShorter(rows, w);
      var i :| 0 <= i < |rows| && Eval(h, Ident(b), rows[i]) != Null;
      assert !w(rows[i]);
    } else {
      var i :| 0 <= i < |rows| && Eval(h, Ident(b), rows[i]) != Null;
      FilterIn(rows, w, rows[i]);
    }
  }

  lemma NullTestNeeded(h: Host, rows: seq<Row>, b: string, isNull: bool, needed: set<string>)
    requires h.Lawful() && Uniform(rows) && PlainRows(rows) && Wanted(b, needed)
    ensures var from, e := [FromItem(rows, None)], NullTest(b, isNull);
      SameAnswer(Some(needed), Plan(h, from, Some(e), Some(needed)), Naive(h, from, Some(e)))
  {
    var from, e := [FromItem(rows, None)], NullTest(b, isNull);
    assert Names(e) == {b};
    assert Covered(e, needed);
    assert Conjuncts(e) == [e] && Cols(e) == {};
    assert WherePairs(Some(e)) == [];
    PlanIsCorrect(h, from, Some(e), Some(needed));
  }

  // The case of a column that is pruned.
  lemma NullTestLost(h: Host, rows: seq<Row>, b: string, isNull: bool, needed: set<string>)
    requires Uniform(rows) && !Wanted(b, needed) && exists k :: k in KeysOf(rows) && Wanted(k, needed)
    ensures RowsSameOn(needed, Pass(h, Some(NullTest(b, isNull)), KeepCols(rows, needed)), Pass(h, Some(NullTest(b, isNull)), rows))
            <==> AllNull(h, rows, b)
  {
    var keep := set k | k in KeysOf(rows) && Wanted(k, needed);
    var k :| k in KeysOf(rows) && Wanted(k, needed);
    assert k in keep && b !in keep;
    NullTestPruned(h, rows, b, isNull, keep);
    NullTestAll(h, rows, b, isNull);
    KeepColsExact(rows, needed);
  }

  // SELECT ... FROM t WHERE b IS [NOT] NULL: the planner does not see `b` inside
  // the null test, so it prunes the column before WHERE reads it. The answer is
  // right if and only if another part of the query needs `b`, or nothing is
  // pruned, or `b` is null in every row.
  lemma NullTestExact(h: Host, rows: seq<Row>, b: string, isNull: bool, needed: set<string>)
    requires h.Lawful() && Uniform(rows) && PlainRows(rows)
    ensures var from, e := [FromItem(rows, None)], NullTest(b, isNull);
      SameAnswer(Some(needed), Plan(h, from, Some(e), Some(needed)), Naive(h, from, Some(e))) <==>
      (Wanted(b, needed) || (forall k :: k in KeysOf(rows) ==> !Wanted(k, needed)) || AllNull(h, rows, b))
  {
    NullTestPlan(h, rows, b, isNull, needed);
    if Wanted(b, needed) {
      NullTestNeeded(h, rows, b, isNull, needed);
    } else if exists k :: k in KeysOf(rows) && Wanted(k, needed) {
      NullTestLost(h, rows, b, isNull, needed);
    } else {
      assert (set k | k in KeysOf(rows) && Wanted(k, needed)) == {};
    }
  }

  // ----- a null test pushed down too early

  function OrNullTest(p: Expr, b: string, isNull: bool): Expr {
    Binary(Or, p, NullTest(b, isNull))
  }

  // `p` reads the left table alone and `b` is no column of it.
  ghost predicate Separate(left: seq<Row>, right: seq<Row>, p: Expr, b: string) {
    && (forall j, n :: 0 <= j < |right| && n in Names(p) ==> n !in right[j])
    && (forall i :: 0 <= i < |left| ==> b !in left[i])
  }

  // Before the join the null test sees no `b`; after it, that of the right row.
  lemma OrNullTestEval(h: Host, l: Row, r: Row, p: Expr, b: string, isNull: bool)
    requires (forall n :: n in Names(p) ==> n !in r) && b !in l
    ensures var e, m := OrNullTest(p, b, isNull), Merge(l, r, None);
      && Holds(h, p, m) == Holds(h, p, l)
      && Holds(h, e, l) == (Holds(h, p, l) || isNull)
      && Holds(h, e, m) == (Holds(h, p, l) || ((Eval(h, Ident(b), r) == Null) == isNull))
  {
    var m := Merge(l, r, None);
    forall n | n in Names(p) ensures Lookup(l, n) == Lookup(m, n) {}
    EvalLocal(h, p, l, m);
    assert Eval(h, Ident(b), l) == Null && Eval(h, Ident(b), m) == Eval(h, Ident(b), r);
    OrNullTestValue(h, p, b, isNull, l);
    OrNullTestValue(h, p, b, isNull, m);
  }

  lemma OrNullTestValue(h: Host, p: Expr, b: string, isNull: bool, row: Row)
    ensures Holds(h, OrNullTest(p, b, isNull), row) == (Holds(h, p, row) || ((Eval(h, Ident(b), row) == Null) == isNull))
  {
    assert Eval(h, NullTest(b, isNull), row) == Bool((Eval(h, Ident(b), row) == Null) == isNull);
  }

  function PassesIn(h: Host, p: Expr): Row -> bool {
    (row: Row) => Holds(h, p, row)
  }

  lemma OrNullTestKept(h: Host, l: Row, r: Row, p: Expr, b: string, isNull: bool)
    requires (forall n :: n in Names(p) ==> n !in r) && b !in l
    ensures EarlyKept(h, OrNullTest(p, b, isNull), l, r, None) <==> isNull || (PassesIn(h, NullTest(b, false))(r) ==> PassesIn(h, p)(l))
  {
    OrNullTestEval(h, l, r, p, b, isNull);
    assert Eval(h, NullTest(b, false), r) == Bool(Eval(h, Ident(b), r) != Null);
  }

  // FROM t, u WHERE p OR b IS [NOT] NULL with `p` about `t` and `b` of `u`: the
  // conjunct is tested before `u` is joined, when `b` reads as null. With IS
  // NULL that keeps every row and the answer is right; with IS NOT NULL it is
  // right if and only if `b` is null in every row of `u` or every row of `t`
  // satisfies `p`.
  lemma OrNullTestExact(h: Host, left: seq<Row>, right: seq<Row>, p: Expr, b: string, isNull: bool)
    requires Applicable(p, KeysOf(left)) && Separate(left, right, p, b)
    ensures var from, e := [FromItem(left, None), FromItem(right, None)], OrNullTest(p, b, isNull);
      Plan(h, from, Some(e), None) == Naive(h, from, Some(e)) <==>
      (isNull || (forall j :: 0 <= j < |right| ==> !PassesIn(h, NullTest(b, false))(right[j])) || forall i :: 0 <= i < |left| ==> PassesIn(h, p)(left[i]))
  {
    var e := OrNullTest(p, b, isNull);
    assert Cols(e) == Cols(p);
    PushedExact(h, left, FromItem(right, None), e);
    forall i, j | 0 <= i < |left| && 0 <= j < |right|
      ensures EarlyKept(h, e, left[i], right[j], None) <==> isNull || (PassesIn(h, NullTest(b, false))(right[j]) ==> PassesIn(h, p)(left[i]))
    {
      OrNullTestKept(h, left[i], right[j], p, b, isNull);
    }
    EitherAll(left, right, PassesIn(h, NullTest(b, false)), PassesIn(h, p));
  }

  // The smallest instance: the only answer is lost.
  lemma OrNullTestLosesRows(h: Host)
    ensures var from := [FromItem([map["a" := Number(Int(2))]], None), FromItem([map["b" := Number(Int(5))]], None)];
      var e := OrNullTest(Binary(Eq, Ident("a"), Lit(Number(Int(1)))), "b", false);
      Plan(h, from, Some(e), None) != Naive(h, from, Some(e))
  {
    var l, r: Row := map["a" := Number(Int(2))], map["b" := Number(Int(5))];
    var p := Binary(Eq, Ident("a"), Lit(Number(Int(1))));
    assert [l][0] == l && [r][0] == r && "a"[0] != "b"[0];
    assert KeyMatches("a", Lower("a")) && Cols(p) == {Lower("a")} && Names(p) == {"a"};
    assert !JsonEq(h, Number(Int(2)), Number(Int(1)));
    assert Eval(h, Ident("b"), r) == Number(Int(5));
    assert !PassesIn(h, p)([l][0]) && PassesIn(h, NullTest("b", false))([r][0]);
    OrNullTestExact(h, [l], [r], p, "b", false);
  }
}
