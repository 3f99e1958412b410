// Where the plan departs from the query, and exactly when it does not: joins on
// values that read as negative zero, conjuncts tested before the columns they
// mean are joined, and rows of different shapes.
module SelectLimits {
  import opened Common
  import opened Json
  import opened Sql
  import opened Select
  import opened SelectCorrect

  lemma {:induction false} FilterWithin<T>(s: seq<T>, p: T -> bool, q: T -> bool)
    ensures |Filter(Filter(s, q), p)| <= |Filter(s, p)|
    ensures Filter(Filter(s, q), p) == Filter(s, p) <==> forall x :: x in s && p(x) ==> q(x)
    ensures |Filter(Filter(s, q), p)| == |Filter(s, p)| <==> forall x :: x in s && p(x) ==> q(x)
  {
    if s != [] {
      FilterWithin(s[1..], p, q);
      assert forall x :: x in s <==> x == s[0] || x in s[1..];
      FilterAppend(if q(s[0]) then [s[0]] else [], Filter(s[1..], q), p);
      assert Filter([s[0]], p) == if p(s[0]) then [s[0]] else [] by {
        assert [s[0]][1..] == [];
      }
      if q(s[0]) {
        assert Filter(Filter(s, q), p) == Filter([s[0]], p) + Filter(Filter(s[1..], q), p);
      } else {
        assert Filter(Filter(s, q), p) == Filter(Filter(s[1..], q), p);
        assert !p(s[0]) ==> Filter(s, p) == Filter(s[1..], p);
      }
    }
  }

  lemma PlainBaseRows(rows: seq<Row>)
    ensures BaseRows(FromItem(rows, None)) == rows
  {
    forall i | 0 <= i < |rows| ensures Merge(map[], rows[i], None) == rows[i] {}
  }

  lemma PlainKeyMatch(k: string, col: string)
    requires '.' !in k
    ensures KeyMatches(k, col) <==> Lower(k) == col
  {
    DotInSuffix(Lower(k), col);
    assert '.' !in Lower(k);
  }

  lemma DotInSuffix(s: string, col: string)
    ensures EndsWith(s, "." + col) ==> '.' in s
  {
    if EndsWith(s, "." + col) {
      var i := |s| - |col| - 1;
      assert s[i] == s[i..][0] == '.';
    }
  }

  lemma NaiveFromBase(h: Host, from: seq<FromItem>, where: Option<Expr>)
    requires from != []
    ensures Naive(h, from, where) == Pass(h, where, CrossAll(BaseRows(from[0]), from[1..]))
  {
    BaseRowsIsJoin(from[0]);
    var unit: seq<Row> := [map[]];
    assert CrossAll(unit, from) == CrossAll(CrossJoin(unit, from[0].rows, from[0].alias), from[1..]);
  }

  lemma OneMoreTable(h: Host, rows: seq<Row>, item: FromItem, where: Option<Expr>)
    ensures JoinRest(h, rows, [item], where, None) == PartialWhere(h, JoinNext(h, rows, item, WherePairs(where)), WhereConjuncts(where))
    ensures CrossAll(rows, [item]) == CrossJoin(rows, item.rows, item.alias)
  {
    assert [item][1..] == [];
  }

  // ----- any two tables and any WHERE

  // Testing conjuncts early changes nothing once WHERE runs.
  lemma EarlyWhere(h: Host, rows: seq<Row>, where: Option<Expr>)
    ensures Pass(h, where, PartialWhere(h, rows, WhereConjuncts(where))) == Pass(h, where, rows)
  {
    var w, q := WhereTest(h, where), PassesApplicable(h, WhereConjuncts(where), KeysOf(rows));
    forall row | w(row) ensures q(row) {
      if where.Some? { ConjunctsMeaning(h, where.value, row); }
    }
    FilterWithin(rows, w, q);
  }

  // Which rows of the new table a row is joined with: those the index gives for
  // its key, or all of them.
  function Picks(h: Host, key: Option<(string, string)>, l: Row): Row -> bool {
    (r: Row) => key.Some? ==> HasKey(h, key.value.1, ProbeKey(h, l, key.value.0))(r)
  }

  function PickedBy(h: Host, key: Option<(string, string)>, item: FromItem): Row -> seq<Row> {
    l => MergeAll(l, Filter(item.rows, Picks(h, key, l)), item.alias)
  }

  lemma {:induction false} SameFlatMap<A, B>(s: seq<A>, f: A -> seq<B>, g: A -> seq<B>)
    requires forall x :: x in s ==> f(x) == g(x)
    ensures FlatMap(s, f) == FlatMap(s, g)
  {
    if s != [] {
      assert s[0] in s && forall x :: x in s[1..] ==> x in s;
      SameFlatMap(s[1..], f, g);
    }
  }

  lemma {:induction false} SameFilter<T>(s: seq<T>, p: T -> bool, q: T -> bool)
    requires forall i :: 0 <= i < |s| ==> p(s[i]) == q(s[i])
    ensures Filter(s, p) == Filter(s, q)
  {
    if s != [] { SameFilter(s[1..], p, q); }
  }

  lemma JoinNextPicks(h: Host, rows: seq<Row>, item: FromItem, pairs: seq<(string, string)>)
    ensures var key := JoinKey(pairs, KeysOf(rows), KeysOf(item.rows));
      JoinNext(h, rows, item, pairs) == FlatMap(rows, PickedBy(h, key, item))
  {
    var key := JoinKey(pairs, KeysOf(rows), KeysOf(item.rows));
    if key.Some? {
      var (lc, rc) := key.value;
      forall l | l in rows ensures Probe(h, item.rows, lc, rc, item.alias)(l) == PickedBy(h, key, item)(l) {
        SameFilter(item.rows, HasKey(h, rc, ProbeKey(h, l, lc)), Picks(h, key, l));
      }
      SameFlatMap(rows, Probe(h, item.rows, lc, rc, item.alias), PickedBy(h, key, item));
    } else {
      forall l | l in rows ensures MergeWith(item.rows, item.alias)(l) == PickedBy(h, key, item)(l) {
        FilterAll(item.rows, Picks(h, key, l));
      }
      SameFlatMap(rows, MergeWith(item.rows, item.alias), PickedBy(h, key, item));
    }
  }

  // What one left row contributes, with and without picking.
  lemma RowPicked(l: Row, right: seq<Row>, alias: Option<string>, k: Row -> bool, w: Row -> bool)
    ensures var some, all := Filter(MergeAll(l, Filter(right, k), alias), w), Filter(MergeAll(l, right, alias), w);
      && |some| <= |all| && (|some| == |all| ==> some == all)
      && (some == all <==> forall r :: r in right && w(Merge(l, r, alias)) ==> k(r))
  {
    var f := MergeTo(l, alias);
    var wf: Row -> bool := (r: Row) => w(f(r));
    FilterMap(right, f, wf, w);
    FilterMap(Filter(right, k), f, wf, w);
    FilterWithin(right, wf, k);
  }

  lemma ShorterParts<T>(a: seq<T>, b: seq<T>, early: seq<T>, late: seq<T>)
    requires |a| <= |b| && (|a| == |b| ==> a == b) && |early| <= |late| && (|early| == |late| ==> early == late)
    ensures |a + early| <= |b + late| && (|a + early| == |b + late| ==> a + early == b + late)
    ensures a + early == b + late <==> a == b && early == late
  {
    if a + early == b + late { assert |a| + |early| == |a + early| == |b| + |late|; }
  }

  // A pair of rows the query wants is one that the plan meets: its left row is
  // kept and its right row is picked.
  predicate PairMet(l: Row, r: Row, alias: Option<string>, keep: Row -> bool, pick: Row -> Row -> bool, w: Row -> bool) {
    w(Merge(l, r, alias)) ==> keep(l) && pick(l)(r)
  }

  predicate RowMet(l: Row, right: seq<Row>, alias: Option<string>, keep: Row -> bool, pick: Row -> Row -> bool, w: Row -> bool) {
    forall j :: 0 <= j < |right| ==> PairMet(l, right[j], alias, keep, pick, w)
  }

  predicate AllMet(left: seq<Row>, right: seq<Row>, alias: Option<string>, keep: Row -> bool, pick: Row -> Row -> bool, w: Row -> bool) {
    forall i :: 0 <= i < |left| ==> RowMet(left[i], right, alias, keep, pick, w)
  }

  function Joined(right: seq<Row>, alias: Option<string>, pick: Row -> Row -> bool): Row -> seq<Row> {
    l => MergeAll(l, Filter(right, pick(l)), alias)
  }

  lemma FlatMapCons<A, B>(x: A, s: seq<A>, f: A -> seq<B>, w: B -> bool)
    ensures Filter(FlatMap([x] + s, f), w) == Filter(f(x), w) + Filter(FlatMap(s, f), w)
  {
    assert ([x] + s)[1..] == s;
    FilterAppend(f(x), FlatMap(s, f), w);
  }

  lemma JoinStep(left: seq<Row>, right: seq<Row>, alias: Option<string>, keep: Row -> bool, pick: Row -> Row -> bool, w: Row -> bool)
    requires left != []
    ensures Filter(CrossJoin(left, right, alias), w) == Filter(MergeAll(left[0], right, alias), w) + Filter(CrossJoin(left[1..], right, alias), w)
    ensures Filter(FlatMap(Filter(left, keep), Joined(right, alias, pick)), w) ==
      (if keep(left[0]) then Filter(MergeAll(left[0], Filter(right, pick(left[0])), alias), w) else [])
      + Filter(FlatMap(Filter(left[1..], keep), Joined(right, alias, pick)), w)
  {
    assert [left[0]] + left[1..] == left;
    FlatMapCons(left[0], left[1..], MergeWith(right, alias), w);
    if keep(left[0]) {
      FlatMapCons(left[0], Filter(left[1..], keep), Joined(right, alias, pick), w);
    } else {
      assert Filter(left, keep) == Filter(left[1..], keep);
    }
  }

  lemma FirstRow(l: Row, right: seq<Row>, alias: Option<string>, keep: Row -> bool, pick: Row -> Row -> bool, w: Row -> bool)
    ensures var some, all := (if keep(l) then Filter(MergeAll(l, Filter(right, pick(l)), alias), w) else []), Filter(MergeAll(l, right, alias), w);
      && |some| <= |all| && (|some| == |all| ==> some == all) && (some == all <==> RowMet(l, right, alias, keep, pick, w))
  {
    RowPicked(l, right, alias, pick(l), w);
    if !keep(l) {
      var all := MergeAll(l, right, alias);
      if Filter(all, w) == [] {
        forall j | 0 <= j < |right| ensures !w(Merge(l, right[j], alias)) {
          FilterIn(all, w, all[j]);
        }
      } else if RowMet(l, right, alias, keep, pick, w) {
        FilterNone(all, w);
      }
    }
  }

  lemma AllMetStep(left: seq<Row>, right: seq<Row>, alias: Option<string>, keep: Row -> bool, pick: Row -> Row -> bool, w: Row -> bool)
    requires left != []
    ensures AllMet(left, right, alias, keep, pick, w) <==>
      RowMet(left[0], right, alias, keep, pick, w) && AllMet(left[1..], right, alias, keep, pick, w)
  {
    assert forall i :: 1 <= i < |left| ==> left[i] == left[1..][i - 1];
  }

  // Keeping some left rows and picking some right rows for each never adds an
  // answer, and loses none exactly when every wanted pair is met.
  lemma {:induction false} JoinedExact(left: seq<Row>, right: seq<Row>, alias: Option<string>, keep: Row -> bool, pick: Row -> Row -> bool, w: Row -> bool)
    ensures var early, late := Filter(FlatMap(Filter(left, keep), Joined(right, alias, pick)), w), Filter(CrossJoin(left, right, alias), w);
      && |early| <= |late| && (|early| == |late| ==> early == late)
      && (early == late <==> AllMet(left, right, alias, keep, pick, w))
  {
    if left != [] {
      JoinedExact(left[1..], right, alias, keep, pick, w);
      JoinStep(left, right, alias, keep, pick, w);
      FirstRow(left[0], right, alias, keep, pick, w);
      ShorterParts(if keep(left[0]) then Filter(MergeAll(left[0], Filter(right, pick(left[0])), alias), w) else [],
                   Filter(MergeAll(left[0], right, alias), w),
                   Filter(FlatMap(Filter(left[1..], keep), Joined(right, alias, pick)), w), Filter(CrossJoin(left[1..], right, alias), w));
      AllMetStep(left, right, alias, keep, pick, w);
    }
  }

  // The rows of the first table that its conjuncts leave, and the columns the
  // second is joined on.
  function FirstKept(h: Host, first: FromItem, where: Option<Expr>): seq<Row> {
    PartialWhere(h, BaseRows(first), WhereConjuncts(where))
  }

  function KeyChosen(h: Host, first: FromItem, item: FromItem, where: Option<Expr>): Option<(string, string)> {
    JoinKey(WherePairs(where), KeysOf(FirstKept(h, first, where)), KeysOf(item.rows))
  }

  function PickFor(h: Host, key: Option<(string, string)>): Row -> Row -> bool {
    l => Picks(h, key, l)
  }

  lemma TwoTablePlan(h: Host, first: FromItem, item: FromItem, where: Option<Expr>)
    ensures var key := KeyChosen(h, first, item, where);
      && Plan(h, [first, item], where, None) == Pass(h, where, FlatMap(FirstKept(h, first, where), Joined(item.rows, item.alias, PickFor(h, key))))
      && Naive(h, [first, item], where) == Pass(h, where, CrossJoin(BaseRows(first), item.rows, item.alias))
  {
    var from, kept := [first, item], FirstKept(h, first, where);
    NaiveFromBase(h, from, where);
    assert from[1..] == [item];
    OneMoreTable(h, BaseRows(first), item, where);
    OneMoreTable(h, kept, item, where);
    EarlyWhere(h, JoinNext(h, kept, item, WherePairs(where)), where);
    JoinNextPicks(h, kept, item, WherePairs(where));
    var key := KeyChosen(h, first, item, where);
    SameFlatMap(kept, PickedBy(h, key, item), Joined(item.rows, item.alias, PickFor(h, key)));
  }

  // FROM any two tables WHERE anything: the answer is right if and only if, for
  // every joined row that passes WHERE, the conjuncts tested early hold of the
  // first table's row alone, and the index gives the second table's row for it.
  predicate PairFound(h: Host, first: FromItem, item: FromItem, where: Option<Expr>, l: Row, r: Row) {
    WhereTest(h, where)(Merge(l, r, item.alias)) ==>
      && PassesApplicable(h, WhereConjuncts(where), KeysOf(BaseRows(first)))(l)
      && Picks(h, KeyChosen(h, first, item, where), l)(r)
  }

  lemma MetPairs(h: Host, first: FromItem, item: FromItem, where: Option<Expr>)
    ensures var base := BaseRows(first);
      AllMet(base, item.rows, item.alias, PassesApplicable(h, WhereConjuncts(where), KeysOf(base)), PickFor(h, KeyChosen(h, first, item, where)), WhereTest(h, where))
      <==> forall i, j :: 0 <= i < |base| && 0 <= j < |item.rows| ==> PairFound(h, first, item, where, base[i], item.rows[j])
  {
    var base := BaseRows(first);
    var keep, pick, w := PassesApplicable(h, WhereConjuncts(where), KeysOf(base)), PickFor(h, KeyChosen(h, first, item, where)), WhereTest(h, where);
    forall i, j | 0 <= i < |base| && 0 <= j < |item.rows|
      ensures PairMet(base[i], item.rows[j], item.alias, keep, pick, w) <==> PairFound(h, first, item, where, base[i], item.rows[j])
    {
    }
    forall i | 0 <= i < |base|
      ensures RowMet(base[i], item.rows, item.alias, keep, pick, w) <==>
        forall j :: 0 <= j < |item.rows| ==> PairFound(h, first, item, where, base[i], item.rows[j])
    {
    }
  }

  lemma TwoTableExact(h: Host, first: FromItem, item: FromItem, where: Option<Expr>)
    ensures var base := BaseRows(first);
      Plan(h, [first, item], where, None) == Naive(h, [first, item], where) <==>
      forall i, j :: 0 <= i < |base| && 0 <= j < |item.rows| ==> PairFound(h, first, item, where, base[i], item.rows[j])
  {
    var base := BaseRows(first);
    TwoTablePlan(h, first, item, where);
    JoinedExact(base, item.rows, item.alias, PassesApplicable(h, WhereConjuncts(where), KeysOf(base)),
                PickFor(h, KeyChosen(h, first, item, where)), WhereTest(h, where));
    MetPairs(h, first, item, where);
  }

  // ----- an equality between two tables

  // Equal values either both read as negative zero or neither does.
  ghost predicate ZerosAgree(h: Host, v: Value, w: Value) {
    JsonEq(h, v, w) ==> (ReadsNegZero(h, v) <==> ReadsNegZero(h, w))
  }

  // The join columns hold scalars, where they are.
  ghost predicate JoinColumns(left: seq<Row>, right: seq<Row>, a: string, b: string) {
    && left != [] && a in left[0] && (forall i :: 0 <= i < |left| && a in left[i] ==> Scalar(left[i][a]))
    && right != [] && b in right[0] && (forall j :: 0 <= j < |right| && b in right[j] ==> Scalar(right[j][b]))
  }

  // The value of the left column and what the index makes of the right one: a
  // row without the column is not in the index.
  ghost predicate Indexed(h: Host, v: Value, r: Row, b: string) {
    if b in r then ZerosAgree(h, v, r[b]) else !JsonEq(h, v, Null)
  }

  lemma ColumnsApart(left: seq<Row>, right: seq<Row>, l: Row, c: string)
    requires TablesApart([FromItem(left, None), FromItem(right, None)]) && l in left && c in l
    ensures !LowerIn(Lower(c), ColumnsOf(right))
  {
    var from := [FromItem(left, None), FromItem(right, None)];
    assert from[0].rows == left && from[1].rows == right;
    assert c in ColumnsOf(from[0].rows);
  }

  lemma Unmatched(left: seq<Row>, right: seq<Row>, l: Row, r: Row, c: string, b: string)
    requires TablesApart([FromItem(left, None), FromItem(right, None)])
    requires l in left && r in right && PlainNames(l) && c in l && b in r
    ensures !KeyMatches(c, Lower(b))
  {
    PlainKeyMatch(c, Lower(b));
    ColumnsApart(left, right, l, c);
    assert b in ColumnsOf(right);
  }

  lemma NotYetApplicable(keys: set<string>, a: string, b: string)
    requires forall c :: c in keys ==> !KeyMatches(c, Lower(b))
    ensures !Applicable(Binary(Eq, Ident(a), Ident(b)), keys)
  {
    assert Lower(b) in Cols(Binary(Eq, Ident(a), Ident(b)));
  }

  lemma EquiJoinWaits(left: seq<Row>, right: seq<Row>, a: string, b: string)
    requires left != [] && right != [] && PlainNames(left[0]) && b in right[0]
    requires TablesApart([FromItem(left, None), FromItem(right, None)])
    ensures !Applicable(Binary(Eq, Ident(a), Ident(b)), KeysOf(left))
  {
    forall c | c in KeysOf(left) ensures !KeyMatches(c, Lower(b)) {
      Unmatched(left, right, left[0], right[0], c, b);
    }
    NotYetApplicable(KeysOf(left), a, b);
  }

  lemma OtherSide(left: seq<Row>, right: seq<Row>, l: Row, r: Row, a: string, b: string)
    requires TablesApart([FromItem(left, None), FromItem(right, None)]) && JoinColumns(left, right, a, b) && l in left && r in right
    ensures a !in r && b !in l
  {
    ColumnsApart(left, right, left[0], a);
    assert right[0].Keys <= ColumnsOf(right) && r.Keys <= ColumnsOf(right);
    if b in l { ColumnsApart(left, right, l, b); }
  }

  lemma EquiJoinKey(h: Host, left: seq<Row>, right: seq<Row>, a: string, b: string)
    requires JoinColumns(left, right, a, b) && !Applicable(Binary(Eq, Ident(a), Ident(b)), KeysOf(left))
    ensures var e := Some(Binary(Eq, Ident(a), Ident(b)));
      && FirstKept(h, FromItem(left, None), e) == left
      && KeyChosen(h, FromItem(left, None), FromItem(right, None), e) == Some((a, b))
  {
    var e := Binary(Eq, Ident(a), Ident(b));
    PlainBaseRows(left);
    FilterAll(left, PassesApplicable(h, [e], KeysOf(left)));
    assert EqPairs(e) == [(a, b)];
  }

  lemma PickedByKey(h: Host, l: Row, r: Row, a: string, b: string)
    ensures Picks(h, Some((a, b)), l)(r) <==> b in r && SortKey(h, r[b]) == SortKey(h, Eval(h, Ident(a), l))
  {
    assert ProbeKey(h, l, a) == SortKey(h, Eval(h, Ident(a), l));
    assert Picks(h, Some((a, b)), l)(r) == HasKey(h, b, ProbeKey(h, l, a))(r);
  }

  lemma EquiJoinPair(h: Host, left: seq<Row>, right: seq<Row>, l: Row, r: Row, a: string, b: string)
    requires h.Lawful() && JoinColumns(left, right, a, b) && !Applicable(Binary(Eq, Ident(a), Ident(b)), KeysOf(left))
    requires a !in r && b !in l && (a in l ==> Scalar(l[a])) && (b in r ==> Scalar(r[b]))
    ensures PairFound(h, FromItem(left, None), FromItem(right, None), Some(Binary(Eq, Ident(a), Ident(b))), l, r) <==>
            Indexed(h, Eval(h, Ident(a), l), r, b)
  {
    var e, m, v, w := Binary(Eq, Ident(a), Ident(b)), Merge(l, r, None), Eval(h, Ident(a), l), Eval(h, Ident(b), r);
    EquiJoinKey(h, left, right, a, b);
    PlainBaseRows(left);
    assert Eval(h, Ident(a), m) == v && Eval(h, Ident(b), m) == w;
    assert Eval(h, e, m) == Bool(JsonEq(h, v, w));
    assert Holds(h, e, m) == JsonEq(h, v, w) && PassesApplicable(h, [e], KeysOf(left))(l);
    PickedByKey(h, l, r, a, b);
    if JsonEq(h, v, w) { ScalarKeyExact(h, v, w); }
  }

  // FROM a, b WHERE a.x = b.y over scalar columns: the hash join returns the
  // right rows if and only if no two equal values differ in reading as negative
  // zero, and no row without the right column is wanted by a null on the left.
  lemma EquiJoinExact(h: Host, left: seq<Row>, right: seq<Row>, a: string, b: string)
    requires h.Lawful() && PlainRows(left) && JoinColumns(left, right, a, b)
    requires TablesApart([FromItem(left, None), FromItem(right, None)])
    ensures var from, e := [FromItem(left, None), FromItem(right, None)], Binary(Eq, Ident(a), Ident(b));
      Plan(h, from, Some(e), None) == Naive(h, from, Some(e)) <==>
      forall i, j :: 0 <= i < |left| && 0 <= j < |right| ==> Indexed(h, Eval(h, Ident(a), left[i]), right[j], b)
  {
    var first, item, e := FromItem(left, None), FromItem(right, None), Binary(Eq, Ident(a), Ident(b));
    EquiJoinWaits(left, right, a, b);
    TwoTableExact(h, first, item, Some(e));
    PlainBaseRows(left);
    forall i, j | 0 <= i < |left| && 0 <= j < |right|
      ensures PairFound(h, first, item, Some(e), left[i], right[j]) <==> Indexed(h, Eval(h, Ident(a), left[i]), right[j], b)
    {
      OtherSide(left, right, left[i], right[j], a, b);
      EquiJoinPair(h, left, right, left[i], right[j], a, b);
    }
  }

  // ----- rows of different shapes

  // SELECT some columns FROM one table: pruning looks at the first row alone.
  // The answer is right if and only if none of that row's keys is wanted, so
  // that nothing is pruned, or it has every wanted key that some row has.
  lemma RaggedExact(h: Host, item: FromItem, needed: set<string>)
    ensures SameAnswer(Some(needed), Plan(h, [item], None, Some(needed)), Naive(h, [item], None)) <==>
            KeepsWanted(BaseRows(item), needed)
  {
    var rows := BaseRows(item);
    NaiveFromBase(h, [item], None);
    assert [item][1..] == [];
    FilterAll(rows, PassesApplicable(h, [], KeysOf(rows)));
    FilterAll(rows, WhereTest(h, None));
    FilterAll(KeepCols(rows, needed), WhereTest(h, None));
    KeepColsExact(rows, needed);
  }

  // The smallest instance: the second row's `b` is lost.
  lemma RaggedLosesColumn(h: Host)
    ensures var item := FromItem([map["a" := Null], map["a" := Null, "b" := Bool(true)]], None);
      !SameAnswer(Some({"a", "b"}), Plan(h, [item], None, Some({"a", "b"})), Naive(h, [item], None))
  {
    var rows: seq<Row> := [map["a" := Null], map["a" := Null, "b" := Bool(true)]];
    PlainBaseRows(rows);
    RaggedExact(h, FromItem(rows, None), {"a", "b"});
    assert Lower("a") == "a" && Lower("b") == "b";
    assert KeyMatches("a", "a") && KeyMatches("b", "b");
    assert "a"[0] != "b"[0] && "b" in rows[1] && "b" !in KeysOf(rows) && "a" in KeysOf(rows);
  }

  // ----- a conjunct tested too early

  // If the joined row satisfies the conjunct, so does the left row alone.
  predicate EarlyKept(h: Host, e: Expr, l: Row, r: Row, alias: Option<string>) {
    Holds(h, e, Merge(l, r, alias)) ==> Holds(h, e, l)
  }

  lemma PushedPair(h: Host, left: seq<Row>, item: FromItem, e: Expr, l: Row, r: Row)
    requires Conjuncts(e) == [e] && EqPairs(e) == [] && Applicable(e, KeysOf(left))
    ensures PairFound(h, FromItem(left, None), item, Some(e), l, r) <==> EarlyKept(h, e, l, r, item.alias)
  {
    PlainBaseRows(left);
    assert PassesApplicable(h, [e], KeysOf(left))(l) == Holds(h, e, l);
  }

  // FROM t, u with one conjunct, no column equality, that the first table
  // already seems to answer: it is tested on the rows of `t` before `u` is
  // joined. The answer is right if and only if no joined row satisfies it whose
  // row of `t` alone does not.
  lemma PushedExact(h: Host, left: seq<Row>, item: FromItem, e: Expr)
    requires Conjuncts(e) == [e] && EqPairs(e) == [] && Applicable(e, KeysOf(left))
    ensures var from := [FromItem(left, None), item];
      Plan(h, from, Some(e), None) == Naive(h, from, Some(e)) <==>
      forall i, j :: 0 <= i < |left| && 0 <= j < |item.rows| ==> EarlyKept(h, e, left[i], item.rows[j], item.alias)
  {
    TwoTableExact(h, FromItem(left, None), item, Some(e));
    PlainBaseRows(left);
    forall i, j | 0 <= i < |left| && 0 <= j < |item.rows|
      ensures PairFound(h, FromItem(left, None), item, Some(e), left[i], item.rows[j]) <==> EarlyKept(h, e, left[i], item.rows[j], item.alias)
    {
      PushedPair(h, left, item, e, left[i], item.rows[j]);
    }
  }

  // ----- a column name shared by two tables

  // What `x` and `alias.x` read before and after the aliased table is joined:
  // before, both are the left table's `x`.
  lemma SharedNames(h: Host, l: Row, r: Row, alias: string, x: string)
    requires x in l && x in r && PlainNames(l) && PlainNames(r)
    ensures var own, other, m := Ident(x), Compound([alias], x), Merge(l, r, Some(alias));
      && Eval(h, own, l) == Eval(h, other, l) == Eval(h, own, m) == l[x]
      && Eval(h, other, m) == r[x]
  {
    assert FullKey([alias], x) == QualifiedKey(alias, x) by { assert [alias][1..] == []; }
    QualifiedHasDot(alias, x);
    Unqualify(alias, x);
    forall c | c in r ensures QualifiedKey(alias, c) != x {
      QualifiedHasDot(alias, c);
    }
    var m, k := Merge(l, r, Some(alias)), QualifiedKey(alias, x);
    assert k !in l && k in m && m[k] == r[x] && m[x] == l[x];
  }

  lemma SharedApplicable(left: seq<Row>, e: Expr, x: string)
    requires x in KeysOf(left) && Cols(e) == {Lower(x)}
    ensures Applicable(e, KeysOf(left))
  {
    assert KeyMatches(x, Lower(x));
  }

  // Every element of one list against every element of another.
  lemma EitherAll<T, U>(ts: seq<T>, us: seq<U>, a: U -> bool, b: T -> bool)
    ensures (forall i, j :: 0 <= i < |ts| && 0 <= j < |us| ==> (a(us[j]) ==> b(ts[i]))) <==>
            ((forall j :: 0 <= j < |us| ==> !a(us[j])) || forall i :: 0 <= i < |ts| ==> b(ts[i]))
  {
    if j, i :| 0 <= j < |us| && a(us[j]) && 0 <= i < |ts| && !b(ts[i]) {
      assert !(a(us[j]) ==> b(ts[i]));
    }
  }

  function EqualsAt(h: Host, x: string, v: Value): Row -> bool {
    (row: Row) => x in row && JsonEq(h, row[x], v)
  }

  lemma SharedKept(h: Host, l: Row, r: Row, alias: string, x: string, v: Value)
    requires x in l && x in r && PlainNames(l) && PlainNames(r)
    ensures EarlyKept(h, Binary(Eq, Compound([alias], x), Lit(v)), l, r, Some(alias)) <==>
            (EqualsAt(h, x, v)(r) ==> EqualsAt(h, x, v)(l))
  {
    var e, m := Compound([alias], x), Merge(l, r, Some(alias));
    SharedNames(h, l, r, alias, x);
    assert Eval(h, Lit(v), l) == v && Eval(h, Lit(v), m) == v;
  }

  // FROM a, b WHERE b.x = v with `x` in both tables: the test is applied to the
  // other table's `x` before `b` is joined. The answer is right if and only if
  // no row of `b` passes or every row of the other table does.
  lemma SharedColumnExact(h: Host, left: seq<Row>, right: seq<Row>, alias: string, x: string, v: Value)
    requires left != [] && PlainRows(left) && PlainRows(right)
    requires (forall i :: 0 <= i < |left| ==> x in left[i]) && (forall j :: 0 <= j < |right| ==> x in right[j])
    ensures var from, e := [FromItem(left, None), FromItem(right, Some(alias))], Binary(Eq, Compound([alias], x), Lit(v));
      Plan(h, from, Some(e), None) == Naive(h, from, Some(e)) <==>
      ((forall j :: 0 <= j < |right| ==> !EqualsAt(h, x, v)(right[j])) || forall i :: 0 <= i < |left| ==> EqualsAt(h, x, v)(left[i]))
  {
    var item, e := FromItem(right, Some(alias)), Binary(Eq, Compound([alias], x), Lit(v));
    SharedApplicable(left, e, x);
    PushedExact(h, left, item, e);
    forall i, j | 0 <= i < |left| && 0 <= j < |right|
      ensures EarlyKept(h, e, left[i], right[j], Some(alias)) <==> (EqualsAt(h, x, v)(right[j]) ==> EqualsAt(h, x, v)(left[i]))
    {
      SharedKept(h, left[i], right[j], alias, x, v);
    }
    EitherAll(left, right, EqualsAt(h, x, v), EqualsAt(h, x, v));
  }

  // What a comparison operator says of two values.
  predicate Compares(h: Host, op: BinaryOp, a: Value, b: Value) {
    AsBool(BinaryValue(h, op, a, b))
  }

  lemma SelfKept(h: Host, l: Row, r: Row, alias: string, x: string, op: BinaryOp)
    requires x in l && x in r && PlainNames(l) && PlainNames(r)
    ensures EarlyKept(h, Binary(op, Ident(x), Compound([alias], x)), l, r, Some(alias)) <==>
            (Compares(h, op, l[x], r[x]) ==> Compares(h, op, l[x], l[x]))
  {
    SharedNames(h, l, r, alias, x);
  }

  // FROM a, b WHERE x op b.x with `x` in both tables: before `b` is joined both
  // sides are the row's own `x`. The answer is right if and only if no pair
  // passes whose left value does not pass against itself.
  lemma SelfCompareExact(h: Host, left: seq<Row>, right: seq<Row>, alias: string, x: string, op: BinaryOp)
    requires left != [] && PlainRows(left) && PlainRows(right) && op != Eq && op != And
    requires (forall i :: 0 <= i < |left| ==> x in left[i]) && (forall j :: 0 <= j < |right| ==> x in right[j])
    ensures var from, e := [FromItem(left, None), FromItem(right, Some(alias))], Binary(op, Ident(x), Compound([alias], x));
      Plan(h, from, Some(e), None) == Naive(h, from, Some(e)) <==>
      forall i, j :: 0 <= i < |left| && 0 <= j < |right| ==> (Compares(h, op, left[i][x], right[j][x]) ==> Compares(h, op, left[i][x], left[i][x]))
  {
    var item, e := FromItem(right, Some(alias)), Binary(op, Ident(x), Compound([alias], x));
    SharedApplicable(left, e, x);
    PushedExact(h, left, item, e);
    forall i, j | 0 <= i < |left| && 0 <= j < |right|
      ensures EarlyKept(h, e, left[i], right[j], Some(alias)) <==>
              (Compares(h, op, left[i][x], right[j][x]) ==> Compares(h, op, left[i][x], left[i][x]))
    {
      SelfKept(h, left[i], right[j], alias, x, op);
    }
  }

  lemma UnequalItself(h: Host, a: Value, b: Value)
    ensures Compares(h, NotEq, a, b) <==> !JsonEq(h, a, b)
    ensures !Compares(h, NotEq, a, a)
  {
  }

  // With `<>` it is right exactly when all values are equal, so that there is
  // no answer to lose.
  lemma SelfUnequalExact(h: Host, left: seq<Row>, right: seq<Row>, alias: string, x: string)
    requires left != [] && PlainRows(left) && PlainRows(right)
    requires (forall i :: 0 <= i < |left| ==> x in left[i]) && (forall j :: 0 <= j < |right| ==> x in right[j])
    ensures var from, e := [FromItem(left, None), FromItem(right, Some(alias))], Binary(NotEq, Ident(x), Compound([alias], x));
      Plan(h, from, Some(e), None) == Naive(h, from, Some(e)) <==>
      forall i, j :: 0 <= i < |left| && 0 <= j < |right| ==> JsonEq(h, left[i][x], right[j][x])
  {
    SelfCompareExact(h, left, right, alias, x, NotEq);
    forall i, j | 0 <= i < |left| && 0 <= j < |right|
      ensures (Compares(h, NotEq, left[i][x], right[j][x]) ==> Compares(h, NotEq, left[i][x], left[i][x])) <==> JsonEq(h, left[i][x], right[j][x])
    {
      UnequalItself(h, left[i][x], right[j][x]);
      UnequalItself(h, left[i][x], left[i][x]);
    }
  }

  lemma AliasesApart(a: string, b: string, c: string, x: string)
    requires a != b && '.' !in c && '.' !in x
    ensures QualifiedKey(a, c) != QualifiedKey(b, x)
  {
    var k, m := QualifiedKey(a, c), QualifiedKey(b, x);
    assert k[..|a|] == a && m[..|b|] == b && k[|a|] == '.' && m[|b|] == '.';
    assert forall i :: |a| < i < |k| ==> k[i] == c[i - |a| - 1];
    assert forall i :: |b| < i < |m| ==> m[i] == x[i - |b| - 1];
  }

  // `a.x = b.x` before and after the join.
  lemma NamesakeEval(h: Host, l: Row, r: Row, a: string, b: string, x: string)
    requires a != b && x in l && x in r && PlainNames(l) && PlainNames(r)
    ensures var e, base := Binary(Eq, Compound([a], x), Compound([b], x)), Merge(map[], l, Some(a));
      && x in base && base[x] == l[x] && Holds(h, e, base)
      && Holds(h, e, Merge(base, r, Some(b))) == JsonEq(h, l[x], r[x])
  {
    var base, m := Merge(map[], l, Some(a)), Merge(Merge(map[], l, Some(a)), r, Some(b));
    NamesakeKeys(l, r, a, b, x);
    CompoundValue(h, base, a, x);
    CompoundValue(h, base, b, x);
    CompoundValue(h, m, a, x);
    CompoundValue(h, m, b, x);
    EqualityHolds(h, Compound([a], x), Compound([b], x), base);
    EqualityHolds(h, Compound([a], x), Compound([b], x), m);
  }

  // A qualified reference reads its own key, or failing that the plain one.
  lemma CompoundValue(h: Host, row: Row, alias: string, x: string)
    ensures var k := QualifiedKey(alias, x);
      Eval(h, Compound([alias], x), row) == if k in row then row[k] else OrNull(Lookup(row, x))
  {
    assert FullKey([alias], x) == QualifiedKey(alias, x) by { assert [alias][1..] == []; }
  }

  lemma EqualityHolds(h: Host, l: Expr, r: Expr, row: Row)
    ensures Holds(h, Binary(Eq, l, r), row) <==> JsonEq(h, Eval(h, l, row), Eval(h, r, row))
  {
  }

  lemma NamesakeKeys(l: Row, r: Row, a: string, b: string, x: string)
    requires a != b && x in l && x in r && PlainNames(l) && PlainNames(r)
    ensures var base, k, n := Merge(map[], l, Some(a)), QualifiedKey(a, x), QualifiedKey(b, x);
      var m := Merge(base, r, Some(b));
      && x in base && base[x] == l[x] && k in base && base[k] == l[x] && n !in base
      && k in m && m[k] == l[x] && n in m && m[n] == r[x]
  {
    QualifiedHasDot(a, x);
    QualifiedHasDot(b, x);
    Unqualify(a, x);
    Unqualify(b, x);
    forall c | c in l ensures QualifiedKey(a, c) != QualifiedKey(b, x) && QualifiedKey(a, c) != x {
      AliasesApart(a, b, c, x);
      QualifiedHasDot(a, c);
    }
    forall c | c in r ensures QualifiedKey(b, c) != QualifiedKey(a, x) && QualifiedKey(b, c) != x {
      AliasesApart(b, a, c, x);
      QualifiedHasDot(b, c);
    }
  }

  ghost predicate SharedScalar(rows: seq<Row>, x: string) {
    PlainRows(rows) && rows != [] && forall i :: 0 <= i < |rows| ==> x in rows[i] && Scalar(rows[i][x])
  }

  lemma NamesakeKey(h: Host, left: seq<Row>, right: seq<Row>, a: string, b: string, x: string)
    requires a != b && SharedScalar(left, x) && SharedScalar(right, x)
    ensures var first, item, e := FromItem(left, Some(a)), FromItem(right, Some(b)), Some(Binary(Eq, Compound([a], x), Compound([b], x)));
      FirstKept(h, first, e) == BaseRows(first) && KeyChosen(h, first, item, e) == Some((x, x))
  {
    var first, e := FromItem(left, Some(a)), Binary(Eq, Compound([a], x), Compound([b], x));
    var base := BaseRows(first);
    forall i | 0 <= i < |base| ensures Holds(h, e, base[i]) && x in base[i] {
      NamesakeEval(h, left[i], right[0], a, b, x);
    }
    FilterAll(base, PassesApplicable(h, [e], KeysOf(base)));
    assert EqPairs(e) == [(x, x)];
  }

  // FROM t a, u b WHERE a.x = b.x over scalars: the shared name does no harm,
  // and the join is right if and only if no two equal values differ in reading
  // as negative zero.
  lemma NamesakeJoinExact(h: Host, left: seq<Row>, right: seq<Row>, a: string, b: string, x: string)
    requires h.Lawful() && a != b && SharedScalar(left, x) && SharedScalar(right, x)
    ensures var from, e := [FromItem(left, Some(a)), FromItem(right, Some(b))], Binary(Eq, Compound([a], x), Compound([b], x));
      Plan(h, from, Some(e), None) == Naive(h, from, Some(e)) <==>
      forall i, j :: 0 <= i < |left| && 0 <= j < |right| ==> ZerosAgree(h, left[i][x], right[j][x])
  {
    var first, item, e := FromItem(left, Some(a)), FromItem(right, Some(b)), Binary(Eq, Compound([a], x), Compound([b], x));
    var base := BaseRows(first);
    TwoTableExact(h, first, item, Some(e));
    forall i, j | 0 <= i < |left| && 0 <= j < |right|
      ensures PairFound(h, first, item, Some(e), base[i], right[j]) <==> ZerosAgree(h, left[i][x], right[j][x])
    {
      NamesakePair(h, left, right, a, b, x, i, j);
    }
  }

  lemma NamesakePair(h: Host, left: seq<Row>, right: seq<Row>, a: string, b: string, x: string, i: nat, j: nat)
    requires h.Lawful() && a != b && SharedScalar(left, x) && SharedScalar(right, x) && i < |left| && j < |right|
    ensures var first, item, e := FromItem(left, Some(a)), FromItem(right, Some(b)), Binary(Eq, Compound([a], x), Compound([b], x));
      PairFound(h, first, item, Some(e), BaseRows(first)[i], right[j]) <==> ZerosAgree(h, left[i][x], right[j][x])
  {
    var e, l := Binary(Eq, Compound([a], x), Compound([b], x)), Merge(map[], left[i], Some(a));
    NamesakeKey(h, left, right, a, b, x);
    NamesakeEval(h, left[i], right[j], a, b, x);
    PickedByKey(h, l, right[j], x, x);
    assert Eval(h, Ident(x), l) == left[i][x];
    if JsonEq(h, left[i][x], right[j][x]) { ScalarKeyExact(h, left[i][x], right[j][x]); }
  }

  // The smallest instance of each: the only answer is lost.
  lemma SharedColumnLosesRows(h: Host)
    ensures var from := [FromItem([map["x" := Number(Int(2))]], None), FromItem([map["x" := Number(Int(1))]], Some("b"))];
      && (var e := Binary(Eq, Compound(["b"], "x"), Lit(Number(Int(1)))); Plan(h, from, Some(e), None) != Naive(h, from, Some(e)))
      && (var e := Binary(NotEq, Ident("x"), Compound(["b"], "x")); Plan(h, from, Some(e), None) != Naive(h, from, Some(e)))
  {
    var l, r: Row := map["x" := Number(Int(2))], map["x" := Number(Int(1))];
    assert [l][0]["x"] == Number(Int(2)) && [r][0]["x"] == Number(Int(1));
    var one := EqualsAt(h, "x", Number(Int(1)));
    assert !JsonEq(h, Number(Int(2)), Number(Int(1)));
    assert one([r][0]) && !one([l][0]) && PlainNames(l) && PlainNames(r);
    SharedColumnExact(h, [l], [r], "b", "x", Number(Int(1)));
    SelfUnequalExact(h, [l], [r], "b", "x");
  }
}
