// Whole queries: the executor's FROM loop, the columns a query needs, and what
// a client sees of the result.
module SelectQuery {
  import opened Common
  import opened Json
  import opened Sql
  import opened Select
  import opened SelectCorrect

  datatype SelectItem = Wildcard | Item(e: Expr)

  datatype Query = Query(
    items: seq<SelectItem>,
    from: seq<FromItem>,
    where: Option<Expr>,
    groupBy: seq<Expr>,
    orderBy: seq<Expr>,
    having: Option<Expr>)

  function ItemExprs(items: seq<SelectItem>): (es: seq<Expr>)
    ensures forall e :: Item(e) in items ==> e in es
  {
    if items == [] then []
    else (if items[0].Item? then [items[0].e] else []) + ItemExprs(items[1..])
  }

  function OptionExprs(o: Option<Expr>): seq<Expr> {
    if o.Some? then [o.value] else []
  }

  // The expressions the planner collects columns from.
  function Mentions(q: Query): seq<Expr> {
    ItemExprs(q.items) + OptionExprs(q.where) + q.groupBy + q.orderBy + OptionExprs(q.having)
  }

  // None when a wildcard asks for all columns.
  function NeededCols(q: Query): Option<set<string>> {
    if Wildcard in q.items then None else Some(ColsAll(Mentions(q)))
  }

  // The executor's loop over the FROM list: one join and one pruning per table,
  // then the full WHERE.
  method ExecuteFrom(h: Host, q: Query) returns (rows: seq<Row>)
    requires |q.from| > 0
    ensures rows == Plan(h, q.from, q.where, NeededCols(q))
  {
    var needed := NeededCols(q);
    var conjuncts, pairs := WhereConjuncts(q.where), WherePairs(q.where);
    rows := Prune(h, BaseRows(q.from[0]), conjuncts, needed);
    ghost var base := rows;
    var i := 1;
    while i < |q.from|
      invariant 1 <= i <= |q.from|
      invariant JoinRest(h, rows, q.from[i..], q.where, needed) == JoinRest(h, base, q.from[1..], q.where, needed)
    {
      var item := q.from[i];
      var key := JoinKey(pairs, KeysOf(rows), KeysOf(item.rows));
      var joined;
      if key.Some? {
        joined := HashJoinTables(h, rows, item.rows, key.value.0, key.value.1, item.alias);
      } else {
        joined := CrossJoinTables(rows, item.rows, item.alias);
      }
      rows := Prune(h, joined, conjuncts, needed);
      i := i + 1;
    }
    rows := Pass(h, q.where, rows);
  }

  // ----- what a client sees

  // The expression stands in one of the query's clauses.
  ghost predicate Occurs(q: Query, e: Expr) {
    Item(e) in q.items || q.where == Some(e) || e in q.groupBy || e in q.orderBy || q.having == Some(e)
  }

  lemma {:induction false} ItemExprsExact(items: seq<SelectItem>, e: Expr)
    ensures e in ItemExprs(items) <==> Item(e) in items
  {
    if items != [] { ItemExprsExact(items[1..], e); }
  }

  lemma {:induction false} ColsAllExact(es: seq<Expr>, c: string)
    ensures c in ColsAll(es) <==> exists e :: e in es && c in Cols(e)
  {
    if es != [] {
      ColsAllExact(es[1..], c);
      if c in Cols(es[0]) { assert es[0] in es; }
    }
  }

  lemma MentionsExact(q: Query, e: Expr)
    ensures e in Mentions(q) <==> Occurs(q, e)
  {
    ItemExprsExact(q.items, e);
  }

  // The needed columns are exactly those of the expressions in the clauses.
  lemma NeededColsExact(q: Query)
    ensures NeededCols(q).None? <==> Wildcard in q.items
    ensures NeededCols(q).Some? ==> forall c :: c in NeededCols(q).value <==> exists e :: Occurs(q, e) && c in Cols(e)
  {
    if NeededCols(q).Some? {
      forall c ensures c in NeededCols(q).value <==> exists e :: Occurs(q, e) && c in Cols(e) {
        ColsAllExact(Mentions(q), c);
        forall e ensures e in Mentions(q) <==> Occurs(q, e) {
          MentionsExact(q, e);
        }
      }
    }
  }

  lemma OccursNeeded(q: Query, e: Expr)
    requires NeededCols(q).Some? && Occurs(q, e)
    ensures Cols(e) <= NeededCols(q).value
  {
    NeededColsExact(q);
  }

  // The planner knows every column the query reads: those of each conjunct it
  // pushes down from that conjunct, all of them from the query.
  ghost predicate QueryCovered(q: Query) {
    && WhereOk(q.where, NeededCols(q))
    && (NeededCols(q).Some? ==> forall e :: Occurs(q, e) ==> Covered(e, NeededCols(q).value))
  }

  lemma OccursCovered(q: Query, e: Expr)
    requires NeededCols(q).Some? && Occurs(q, e) && NoNullTests(e)
    ensures Covered(e, NeededCols(q).value)
  {
    WalkIsComplete(e);
    OccursNeeded(q, e);
    forall n | n in Names(e) ensures Wanted(n, NeededCols(q).value) {
      WantedMonotone(n, Cols(e), NeededCols(q).value);
    }
  }

  lemma {:induction false} ConjunctsNoNullTests(e: Expr, c: Expr)
    requires NoNullTests(e) && c in Conjuncts(e)
    ensures NoNullTests(c)
  {
    match e
    case Binary(And, l, r) =>
      if c in Conjuncts(l) { ConjunctsNoNullTests(l, c); } else { ConjunctsNoNullTests(r, c); }
    case Nested(x) => ConjunctsNoNullTests(x, c);
    case _ =>
  }

  // It does in every query without null tests.
  lemma NoNullTestsCovered(q: Query)
    requires forall e :: Occurs(q, e) ==> NoNullTests(e)
    ensures QueryCovered(q)
  {
    if q.where.Some? {
      assert Occurs(q, q.where.value);
      forall c | c in Conjuncts(q.where.value) ensures Covered(c, Cols(c)) {
        ConjunctsNoNullTests(q.where.value, c);
        WalkIsComplete(c);
      }
    }
    if NeededCols(q).Some? {
      forall e | Occurs(q, e) ensures Covered(e, NeededCols(q).value) {
        OccursCovered(q, e);
      }
    }
  }

  ghost predicate GoodTables(h: Host, q: Query) {
    h.Lawful() && |q.from| > 0 && TablesOk(h, q.where, NeededCols(q), q.from)
  }

  // Every expression in a clause of the query, evaluated on the i-th row the
  // plan returns, has the value it has on the i-th row of the filtered cross
  // product. So projections, aggregate arguments and sort keys all agree.
  lemma QueryIsCorrect(h: Host, q: Query)
    requires GoodTables(h, q) && QueryCovered(q)
    ensures var got, want := Plan(h, q.from, q.where, NeededCols(q)), Naive(h, q.from, q.where);
      && |got| == |want|
      && (Wildcard in q.items ==> got == want)
      && forall i, e :: 0 <= i < |got| && Occurs(q, e) ==> Eval(h, e, got[i]) == Eval(h, e, want[i])
  {
    PlanIsCorrect(h, q.from, q.where, NeededCols(q));
    var got, want := Plan(h, q.from, q.where, NeededCols(q)), Naive(h, q.from, q.where);
    if NeededCols(q).Some? {
      forall i, e | 0 <= i < |got| && Occurs(q, e) ensures Eval(h, e, got[i]) == Eval(h, e, want[i]) {
        CoveredSame(h, NeededCols(q).value, e, got[i], want[i]);
      }
    }
  }

  // ----- grouping

  // GROUP BY looks its columns up by name and groups by their normalised text.
  function GroupKey(h: Host, row: Row, columns: seq<string>): seq<string> {
    Map(columns, (c: string) => ProbeKey(h, row, c))
  }

  ghost predicate GroupsBy(q: Query, columns: seq<string>) {
    |columns| == |q.groupBy| && forall i :: 0 <= i < |columns| ==> SimpleCol(q.groupBy[i]) == Some(columns[i])
  }

  lemma GroupColumnNeeded(q: Query, columns: seq<string>, i: nat)
    requires GroupsBy(q, columns) && i < |columns| && NeededCols(q).Some?
    ensures Wanted(columns[i], NeededCols(q).value)
  {
    OccursNeeded(q, q.groupBy[i]);
    assert KeyMatches(columns[i], Lower(columns[i]));
  }

  // Both fall into the same groups: two rows of the plan share a group exactly
  // when the same two rows of the filtered cross product do.
  lemma GroupsAgree(h: Host, q: Query, columns: seq<string>)
    requires GoodTables(h, q) && WhereOk(q.where, NeededCols(q)) && GroupsBy(q, columns)
    ensures var got, want := Plan(h, q.from, q.where, NeededCols(q)), Naive(h, q.from, q.where);
      && |got| == |want|
      && forall i :: 0 <= i < |got| ==> GroupKey(h, got[i], columns) == GroupKey(h, want[i], columns)
  {
    PlanIsCorrect(h, q.from, q.where, NeededCols(q));
    var got, want := Plan(h, q.from, q.where, NeededCols(q)), Naive(h, q.from, q.where);
    if NeededCols(q).Some? {
      forall i | 0 <= i < |got| ensures GroupKey(h, got[i], columns) == GroupKey(h, want[i], columns) {
        forall j | 0 <= j < |columns| ensures ProbeKey(h, got[i], columns[j]) == ProbeKey(h, want[i], columns[j]) {
          GroupColumnNeeded(q, columns, j);
          assert Lookup(got[i], columns[j]) == Lookup(want[i], columns[j]);
        }
      }
    }
  }
}
