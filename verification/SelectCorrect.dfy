// The optimised SELECT plan returns what the query means: the cross product
// of its tables filtered by WHERE, row for row and in order.
module SelectCorrect {
  import opened Common
  import opened Json
  import opened Sql
  import opened Select

  // ----- key names

  // The part of a key after its last dot.
  function Base(s: string): string {
    if s == "" then ""
    else if '.' in s[1..] then Base(s[1..])
    else if s[0] == '.' then s[1..]
    else s
  }

  function LowBase(s: string): string {
    Base(Lower(s))
  }

  lemma {:induction false} BasePlain(s: string)
    requires '.' !in s
    ensures Base(s) == s
  {
  }

  lemma {:induction false} BaseDotted(p: string, c: string)
    ensures Base(p + "." + c) == Base(c)
  {
    var s := p + "." + c;
    if p == "" {
      assert s[1..] == c;
      if '.' !in c { BasePlain(c); }
    } else {
      assert s[1..] == p[1..] + "." + c;
      assert s[1..][|p| - 1] == '.';
      BaseDotted(p[1..], c);
    }
  }

  lemma BaseSuffix(s: string, c: string)
    requires EndsWith(s, "." + c)
    ensures Base(s) == Base(c)
  {
    var p := s[..|s| - |c| - 1];
    assert s == p + ("." + c) == p + "." + c;
    BaseDotted(p, c);
  }

  lemma LowBaseMatch(k: string, col: string)
    requires KeyMatches(k, col)
    ensures LowBase(k) == Base(col)
  {
    if Lower(k) != col {
      BaseSuffix(Lower(k), col);
    }
  }

  lemma {:induction false} LowerBase(s: string)
    ensures Lower(Base(s)) == LowBase(s)
  {
    if s != "" {
      var t := Lower(s);
      assert t[1..] == Lower(s[1..]);
      assert '.' in t[1..] <==> '.' in s[1..] by {
        if '.' in t[1..] {
          var i :| 0 <= i < |t[1..]| && t[1..][i] == '.';
          assert s[1..][i] == '.';
        }
        if '.' in s[1..] {
          var i :| 0 <= i < |s[1..]| && s[1..][i] == '.';
          assert t[1..][i] == '.';
        }
      }
      if '.' in s[1..] {
        LowerBase(s[1..]);
      }
    }
  }

  lemma LowBaseFullKey(q: seq<string>, c: string)
    ensures LowBase(FullKey(q, c)) == LowBase(c)
  {
    FullKeyMatches(q, c);
    LowBaseMatch(FullKey(q, c), Lower(c));
  }

  lemma {:induction false} BaseFullKey(q: seq<string>, c: string)
    ensures Base(FullKey(q, c)) == Base(c)
  {
    if q != [] {
      BaseFullKey(q[1..], c);
      BaseDotted(q[0], FullKey(q[1..], c));
    }
  }

  // ----- what the executor needs of its input

  // The columns that some row of a table has.
  ghost function ColumnsOf(rows: seq<Row>): (cols: set<string>)
    ensures forall i :: 0 <= i < |rows| ==> rows[i].Keys <= cols
  {
    set i, c | 0 <= i < |rows| && c in rows[i] :: c
  }

  ghost predicate LowerIn(s: string, keys: set<string>) {
    exists c :: c in keys && Lower(c) == s
  }

  // No column name is shared, whatever its case, by two tables of FROM.
  ghost predicate TablesApart(from: seq<FromItem>) {
    forall i, j, c :: 0 <= i < j < |from| && c in ColumnsOf(from[i].rows) ==> !LowerIn(Lower(c), ColumnsOf(from[j].rows))
  }

  // Columns that occur in an equality the planner may join on.
  ghost predicate InJoin(where: Option<Expr>, base: string) {
    exists i :: 0 <= i < |WherePairs(where)| && (Base(WherePairs(where)[i].0) == base || Base(WherePairs(where)[i].1) == base)
  }

  ghost predicate NoNegZeros(h: Host, where: Option<Expr>, row: Row) {
    forall k :: k in row && InJoin(where, Base(k)) ==> !HasNegZero(h, row[k])
  }

  // Keys the planner looks for in the first row only, to join on or to keep.
  ghost predicate Matters(where: Option<Expr>, needed: Option<set<string>>, k: string) {
    InJoin(where, Base(k)) || (needed.Some? && Wanted(k, needed.value))
  }

  // A column that matters itself or by its qualified name.
  ghost predicate ColumnMatters(where: Option<Expr>, needed: Option<set<string>>, alias: Option<string>, c: string) {
    Matters(where, needed, c) || (alias.Some? && Matters(where, needed, QualifiedKey(alias.value, c)))
  }

  // Rows may differ in their columns, but not in those.
  ghost predicate SameShape(where: Option<Expr>, needed: Option<set<string>>, item: FromItem) {
    forall i, j, c :: 0 <= i < |item.rows| && 0 <= j < |item.rows| && c in item.rows[i] && ColumnMatters(where, needed, item.alias, c) ==> c in item.rows[j]
  }

  ghost predicate TableOk(h: Host, where: Option<Expr>, needed: Option<set<string>>, item: FromItem) {
    && SameShape(where, needed, item)
    && PlainRows(item.rows)
    && forall i :: 0 <= i < |item.rows| ==> NoNegZeros(h, where, item.rows[i])
  }

  ghost predicate TablesOk(h: Host, where: Option<Expr>, needed: Option<set<string>>, from: seq<FromItem>) {
    && TablesApart(from)
    && forall i :: 0 <= i < |from| ==> TableOk(h, where, needed, from[i])
  }

  // Each conjunct that can be pushed down reads only columns the planner
  // collected from it, and WHERE reads only columns that pruning keeps.
  ghost predicate WhereOk(where: Option<Expr>, needed: Option<set<string>>) {
    where.Some? ==>
      && (forall c :: c in Conjuncts(where.value) ==> Cols(c) == {} || Covered(c, Cols(c)))
      && (needed.Some? ==> Covered(where.value, needed.value))
  }

  ghost predicate Plannable(h: Host, from: seq<FromItem>, where: Option<Expr>, needed: Option<set<string>>) {
    h.Lawful() && TablesOk(h, where, needed, from) && WhereOk(where, needed)
  }

  // ----- rows in the pipeline

  // All keys with the same last part carry the same value.
  ghost predicate Coherent(row: Row) {
    forall k, k' :: k in row && k' in row && Base(k) == Base(k') ==> row[k] == row[k']
  }

  // Rows that agree on which of the keys that matter they have.
  ghost predicate Alike(where: Option<Expr>, needed: Option<set<string>>, rows: seq<Row>) {
    forall i, j, k :: 0 <= i < |rows| && 0 <= j < |rows| && k in rows[i] && Matters(where, needed, k) ==> k in rows[j]
  }

  ghost predicate RowsOk(h: Host, where: Option<Expr>, needed: Option<set<string>>, rows: seq<Row>) {
    && Alike(where, needed, rows)
    && forall i :: 0 <= i < |rows| ==> Coherent(rows[i]) && NoNegZeros(h, where, rows[i])
  }

  // No key of `keys` ends in the name of a column of a table in `rest`.
  ghost predicate KeysApart(keys: set<string>, rest: seq<FromItem>) {
    forall k, j :: k in keys && 0 <= j < |rest| ==> !LowerIn(LowBase(k), ColumnsOf(rest[j].rows))
  }

  ghost predicate RowsApart(rows: seq<Row>, rest: seq<FromItem>) {
    forall i :: 0 <= i < |rows| ==> KeysApart(rows[i].Keys, rest)
  }

  lemma QualifiedLookup(alias: Option<string>, r: Row, n: string)
    requires PlainNames(r)
    ensures n in Qualified(alias, r) ==> Base(n) in r && Qualified(alias, r)[n] == r[Base(n)] && LowBase(n) == Lower(Base(n))
  {
    if n in Qualified(alias, r) {
      var k :| k in r && QualifiedKey(alias.value, k) == n;
      Unqualify(alias.value, k);
      BaseDotted(alias.value, k);
      BasePlain(k);
      LowerBase(n);
    }
  }

  // What a key of the merged row holds: a key named after a column of the new
  // table holds that column, any other key holds what the left row held.
  lemma MergeLookup(l: Row, r: Row, alias: Option<string>, n: string)
    requires PlainNames(r)
    ensures !LowerIn(LowBase(n), r.Keys) ==> Lookup(Merge(l, r, alias), n) == Lookup(l, n)
    ensures n in Merge(l, r, alias) && n !in l ==> Base(n) in r && Merge(l, r, alias)[n] == r[Base(n)]
    ensures n in Merge(l, r, alias) ==> n in l || LowerIn(LowBase(n), r.Keys)
  {
    QualifiedLookup(alias, r, n);
    if n in r {
      BasePlain(n);
      LowerBase(n);
      assert Lower(n) == LowBase(n);
    }
  }

  lemma MergeCoherent(h: Host, where: Option<Expr>, l: Row, r: Row, alias: Option<string>)
    requires PlainNames(r) && Coherent(l) && NoNegZeros(h, where, l) && NoNegZeros(h, where, r)
    requires forall k :: k in l ==> !LowerIn(LowBase(k), r.Keys)
    ensures Coherent(Merge(l, r, alias)) && NoNegZeros(h, where, Merge(l, r, alias))
  {
    var m := Merge(l, r, alias);
    forall k | k in m
      ensures k in l ==> m[k] == l[k]
      ensures k !in l ==> Base(k) in r && m[k] == r[Base(k)]
    {
      MergeLookup(l, r, alias, k);
    }
    forall k, k' | k in m && k' in m && Base(k) == Base(k') ensures m[k] == m[k'] {
      LowerBase(k);
      LowerBase(k');
      MergeLookup(l, r, alias, k);
      MergeLookup(l, r, alias, k');
    }
    forall k | k in m && InJoin(where, Base(k)) ensures !HasNegZero(h, m[k]) {
      if k !in l { BasePlain(Base(k)); }
    }
  }

  // ----- completions: the full rows a partial row can still grow into

  lemma {:induction false} CrossAllAppend(a: seq<Row>, b: seq<Row>, rest: seq<FromItem>)
    ensures CrossAll(a + b, rest) == CrossAll(a, rest) + CrossAll(b, rest)
    decreases |rest|
  {
    if rest != [] {
      var f := MergeWith(rest[0].rows, rest[0].alias);
      FlatMapAppend(a, b, f);
      CrossAllAppend(FlatMap(a, f), FlatMap(b, f), rest[1..]);
    }
  }

  lemma {:induction false} CrossAllNone(rest: seq<FromItem>)
    ensures CrossAll([], rest) == []
    decreases |rest|
  {
    if rest != [] { CrossAllNone(rest[1..]); }
  }

  lemma {:induction false} FlatMapIn<A, B>(s: seq<A>, f: A -> seq<B>, y: B) returns (x: A)
    requires y in FlatMap(s, f)
    ensures x in s && y in f(x)
  {
    if y in f(s[0]) { x := s[0]; } else { x := FlatMapIn(s[1..], f, y); }
  }

  // No table to come has a column of this base name.
  ghost predicate AbsentFrom(n: string, rest: seq<FromItem>) {
    forall j :: 0 <= j < |rest| ==> !LowerIn(LowBase(n), ColumnsOf(rest[j].rows))
  }

  // A completion keeps every key that no later table's column is named after.
  lemma {:induction false} CompletionKeeps(rows: seq<Row>, rest: seq<FromItem>, full: Row) returns (m: Row)
    requires full in CrossAll(rows, rest)
    requires forall j :: 0 <= j < |rest| ==> PlainRows(rest[j].rows)
    ensures m in rows
    ensures forall n :: AbsentFrom(n, rest) ==> Lookup(m, n) == Lookup(full, n)
    decreases |rest|
  {
    if rest == [] {
      m := full;
    } else {
      var t := rest[0];
      var joined := CompletionKeeps(CrossJoin(rows, t.rows, t.alias), rest[1..], full);
      m := FlatMapIn(rows, MergeWith(t.rows, t.alias), joined);
      var i :| 0 <= i < |t.rows| && joined == Merge(m, t.rows[i], t.alias);
      forall n | AbsentFrom(n, rest) ensures Lookup(m, n) == Lookup(full, n) {
        assert !LowerIn(LowBase(n), ColumnsOf(rest[0].rows)) && AbsentFrom(n, rest[1..]);
        MergeLookup(m, t.rows[i], t.alias, n);
      }
    }
  }

  // A row is doomed when none of its completions passes WHERE.
  ghost predicate Doomed(h: Host, where: Option<Expr>, m: Row, rest: seq<FromItem>) {
    Pass(h, where, CrossAll([m], rest)) == []
  }

  lemma DoomedIf(h: Host, where: Option<Expr>, m: Row, rest: seq<FromItem>)
    requires forall full :: full in CrossAll([m], rest) ==> !WhereTest(h, where)(full)
    ensures Doomed(h, where, m, rest)
  {
    FilterNone(CrossAll([m], rest), WhereTest(h, where));
  }

  // Removing doomed rows early does not change the answer.
  lemma {:induction false} DropDoomed(h: Host, where: Option<Expr>, rows: seq<Row>, rest: seq<FromItem>, keep: Row -> bool)
    requires forall i :: 0 <= i < |rows| && !keep(rows[i]) ==> Doomed(h, where, rows[i], rest)
    ensures Pass(h, where, CrossAll(Filter(rows, keep), rest)) == Pass(h, where, CrossAll(rows, rest))
  {
    if rows != [] {
      var tail := rows[1..];
      var head := if keep(rows[0]) then [rows[0]] else [];
      DropDoomed(h, where, tail, rest, keep);
      PassSplit(h, where, head, Filter(tail, keep), rest);
      PassSplit(h, where, [rows[0]], tail, rest);
      assert [rows[0]] + tail == rows;
      if !keep(rows[0]) {
        CrossAllNone(rest);
      }
    }
  }

  lemma PassSplit(h: Host, where: Option<Expr>, a: seq<Row>, b: seq<Row>, rest: seq<FromItem>)
    ensures Pass(h, where, CrossAll(a + b, rest)) == Pass(h, where, CrossAll(a, rest)) + Pass(h, where, CrossAll(b, rest))
  {
    CrossAllAppend(a, b, rest);
    FilterAppend(CrossAll(a, rest), CrossAll(b, rest), WhereTest(h, where));
  }

  // ----- rule 1: predicate pushdown

  lemma CoveredNamesKeep(c: Expr, keys: set<string>, rest: seq<FromItem>, n: string)
    requires Applicable(c, keys) && Covered(c, Cols(c)) && KeysApart(keys, rest) && n in Names(c)
    ensures AbsentFrom(n, rest)
  {
    var col :| col in Cols(c) && KeyMatches(n, col);
    var k :| k in keys && KeyMatches(k, col);
    LowBaseMatch(n, col);
    LowBaseMatch(k, col);
  }

  // An applicable conjunct has the same truth value on every completion.
  lemma ConjunctSettled(h: Host, c: Expr, keys: set<string>, m: Row, rest: seq<FromItem>, full: Row)
    requires Applicable(c, keys) && Covered(c, Cols(c)) && KeysApart(keys, rest)
    requires forall j :: 0 <= j < |rest| ==> PlainRows(rest[j].rows)
    requires full in CrossAll([m], rest)
    ensures Holds(h, c, m) == Holds(h, c, full)
  {
    var m' := CompletionKeeps([m], rest, full);
    forall n | n in Names(c) ensures Lookup(m, n) == Lookup(full, n) {
      CoveredNamesKeep(c, keys, rest, n);
    }
    EvalLocal(h, c, m, full);
  }

  lemma PushdownDooms(h: Host, where: Option<Expr>, keys: set<string>, m: Row, rest: seq<FromItem>)
    requires WhereOk(where, None) && KeysApart(keys, rest)
    requires forall j :: 0 <= j < |rest| ==> PlainRows(rest[j].rows)
    requires !PassesApplicable(h, WhereConjuncts(where), keys)(m)
    ensures Doomed(h, where, m, rest)
  {
    var c :| c in WhereConjuncts(where) && Applicable(c, keys) && !Holds(h, c, m);
    forall full | full in CrossAll([m], rest) ensures !WhereTest(h, where)(full) {
      ConjunctSettled(h, c, keys, m, rest, full);
      ConjunctsMeaning(h, where.value, full);
    }
    DoomedIf(h, where, m, rest);
  }

  // Predicate pushdown preserves the answer, whatever the rows' shapes.
  lemma PushdownPreserves(h: Host, where: Option<Expr>, rows: seq<Row>, rest: seq<FromItem>)
    requires WhereOk(where, None) && KeysApart(KeysOf(rows), rest)
    requires forall j :: 0 <= j < |rest| ==> PlainRows(rest[j].rows)
    ensures Pass(h, where, CrossAll(PartialWhere(h, rows, WhereConjuncts(where)), rest))
         == Pass(h, where, CrossAll(rows, rest))
  {
    var keep := PassesApplicable(h, WhereConjuncts(where), KeysOf(rows));
    forall i | 0 <= i < |rows| && !keep(rows[i]) ensures Doomed(h, where, rows[i], rest) {
      PushdownDooms(h, where, KeysOf(rows), rows[i], rest);
    }
    DropDoomed(h, where, rows, rest, keep);
  }

  // ----- rule 2: hash join

  function KeysMatch(h: Host, lc: string, rc: string): Row -> bool {
    m => lc in m && rc in m && SortKey(h, m[lc]) == SortKey(h, m[rc])
  }

  // The columns a row is joined on: its own, and one that only `right` has.
  ghost predicate Joinable(l: Row, right: seq<Row>, lc: string, rc: string) {
    lc in l && forall i :: 0 <= i < |right| ==> rc in right[i] && rc !in l && !LowerIn(LowBase(lc), right[i].Keys)
  }

  lemma ProbeIsFilter(h: Host, l: Row, right: seq<Row>, lc: string, rc: string, alias: Option<string>)
    requires PlainRows(right) && Joinable(l, right, lc, rc)
    ensures Probe(h, right, lc, rc, alias)(l) == Filter(MergeAll(l, right, alias), KeysMatch(h, lc, rc))
  {
    var keep, keepMerged := HasKey(h, rc, ProbeKey(h, l, lc)), KeysMatch(h, lc, rc);
    forall i | 0 <= i < |right| ensures keepMerged(Merge(l, right[i], alias)) == keep(right[i]) {
      MergeLookup(l, right[i], alias, lc);
      MergeLookup(l, right[i], alias, rc);
      BasePlain(rc);
    }
    FilterMap(right, MergeTo(l, alias), keep, keepMerged);
  }

  // A hash join is the cross join restricted to pairs with equal keys.
  lemma {:induction false} HashJoinIsFilter(h: Host, left: seq<Row>, right: seq<Row>, lc: string, rc: string, alias: Option<string>)
    requires PlainRows(right) && forall l :: l in left ==> Joinable(l, right, lc, rc)
    ensures HashJoin(h, left, right, lc, rc, alias) == Filter(CrossJoin(left, right, alias), KeysMatch(h, lc, rc))
  {
    if left != [] {
      assert left[0] in left && forall l :: l in left[1..] ==> l in left;
      ProbeIsFilter(h, left[0], right, lc, rc, alias);
      HashJoinIsFilter(h, left[1..], right, lc, rc, alias);
      FilterAppend(MergeAll(left[0], right, alias), CrossJoin(left[1..], right, alias), KeysMatch(h, lc, rc));
    }
  }

  lemma {:induction false} JoinKeyIsPair(pairs: seq<(string, string)>, known: set<string>, right: set<string>)
    requires JoinKey(pairs, known, right).Some?
    ensures var (lc, rc) := JoinKey(pairs, known, right).value;
      lc in known && rc in right && ((lc, rc) in pairs || (rc, lc) in pairs)
  {
    if pairs[0].0 in known && pairs[0].1 in right {
    } else if pairs[0].1 in known && pairs[0].0 in right {
    } else {
      JoinKeyIsPair(pairs[1..], known, right);
    }
  }

  // A reference to column `c` evaluates, on any completion, to that column.
  lemma ColumnValue(h: Host, e: Expr, c: string, m: Row, full: Row, rest: seq<FromItem>)
    requires SimpleCol(e) == Some(c) && c in m && Coherent(m) && KeysApart(m.Keys, rest)
    requires forall n :: AbsentFrom(n, rest) ==> Lookup(m, n) == Lookup(full, n)
    ensures Eval(h, e, full) == m[c]
  {
    ColumnNames(e, c, m, rest);
    EvalLocal(h, e, m, full);
    ColumnOf(h, e, c, m);
  }

  lemma ColumnNames(e: Expr, c: string, m: Row, rest: seq<FromItem>)
    requires SimpleCol(e) == Some(c) && c in m && KeysApart(m.Keys, rest)
    ensures forall n :: n in Names(e) ==> AbsentFrom(n, rest)
  {
    if e.Compound? { LowBaseFullKey(e.qualifier, e.col); }
    forall n | n in Names(e) ensures AbsentFrom(n, rest) {
      assert LowBase(n) == LowBase(c);
      SameBaseAbsent(n, c, m.Keys, rest);
    }
  }

  lemma SameBaseAbsent(n: string, c: string, keys: set<string>, rest: seq<FromItem>)
    requires c in keys && KeysApart(keys, rest) && LowBase(n) == LowBase(c)
    ensures AbsentFrom(n, rest)
  {
  }

  lemma ColumnOf(h: Host, e: Expr, c: string, m: Row)
    requires SimpleCol(e) == Some(c) && c in m && Coherent(m)
    ensures Eval(h, e, m) == m[c]
  {
    if e.Compound? {
      BaseFullKey(e.qualifier, e.col);
      assert Eval(h, e, m) == if FullKey(e.qualifier, c) in m then m[FullKey(e.qualifier, c)] else m[c];
    }
  }

  lemma HashMissDooms(h: Host, where: Option<Expr>, m: Row, lc: string, rc: string, rest: seq<FromItem>)
    requires h.Lawful() && where.Some? && (forall j :: 0 <= j < |rest| ==> PlainRows(rest[j].rows)) && KeysApart(m.Keys, rest)
    requires Coherent(m) && NoNegZeros(h, where, m)
    requires lc in m && rc in m
    requires (lc, rc) in WherePairs(where) || (rc, lc) in WherePairs(where)
    requires !KeysMatch(h, lc, rc)(m)
    ensures Doomed(h, where, m, rest)
  {
    forall full | full in CrossAll([m], rest) ensures !WhereTest(h, where)(full) {
      if WhereTest(h, where)(full) {
        var m' := CompletionKeeps([m], rest, full);
        assert InJoin(where, Base(lc)) && InJoin(where, Base(rc));
        if (lc, rc) in WherePairs(where) {
          var l, r := EqPairMeaning(h, where.value, full, lc, rc);
          ColumnValue(h, l, lc, m, full, rest);
          ColumnValue(h, r, rc, m, full, rest);
          EqualValuesShareKey(h, m[lc], m[rc]);
        } else {
          var l, r := EqPairMeaning(h, where.value, full, rc, lc);
          ColumnValue(h, l, rc, m, full, rest);
          ColumnValue(h, r, lc, m, full, rest);
          EqualValuesShareKey(h, m[rc], m[lc]);
        }
      }
    }
    DoomedIf(h, where, m, rest);
  }

  // ----- joining keeps the rows well formed

  lemma ApartFirst(keys: set<string>, rest: seq<FromItem>)
    requires KeysApart(keys, rest) && rest != []
    ensures KeysApart(keys, rest[1..])
    ensures forall k :: k in keys ==> !LowerIn(LowBase(k), ColumnsOf(rest[0].rows))
  {
    forall k, j | k in keys && 0 <= j < |rest[1..]| ensures !LowerIn(LowBase(k), ColumnsOf(rest[1..][j].rows)) {
      assert rest[1..][j] == rest[j + 1];
    }
  }

  lemma TablesTail(h: Host, where: Option<Expr>, needed: Option<set<string>>, rest: seq<FromItem>)
    requires TablesOk(h, where, needed, rest) && rest != []
    ensures TablesOk(h, where, needed, rest[1..]) && TableOk(h, where, needed, rest[0])
  {
    forall i | 0 <= i < |rest[1..]| ensures rest[1..][i] == rest[i + 1] {}
  }

  lemma MergedKeysApart(l: Row, i: nat, rest: seq<FromItem>)
    requires rest != [] && TablesApart(rest) && PlainRows(rest[0].rows) && KeysApart(l.Keys, rest) && i < |rest[0].rows|
    ensures KeysApart(Merge(l, rest[0].rows[i], rest[0].alias).Keys, rest[1..])
  {
    var m := Merge(l, rest[0].rows[i], rest[0].alias);
    forall k, j | k in m && 0 <= j < |rest[1..]| ensures !LowerIn(LowBase(k), ColumnsOf(rest[1..][j].rows)) {
      assert rest[1..][j] == rest[j + 1];
      MergeLookup(l, rest[0].rows[i], rest[0].alias, k);
      if k !in l {
        var c :| c in rest[0].rows[i] && Lower(c) == LowBase(k);
        assert c in ColumnsOf(rest[0].rows) && !LowerIn(Lower(c), ColumnsOf(rest[j + 1].rows));
      }
    }
  }

  // Merging like rows gives like rows.
  lemma MergedAlike(where: Option<Expr>, needed: Option<set<string>>, l: Row, l': Row, r: Row, r': Row, alias: Option<string>, k: string)
    requires k in Merge(l, r, alias) && Matters(where, needed, k) && (k in l ==> k in l')
    requires forall c :: c in r && ColumnMatters(where, needed, alias, c) ==> c in r'
    ensures k in Merge(l', r', alias)
  {
    if k !in l && k !in r {
      var c :| c in r && QualifiedKey(alias.value, c) == k;
      assert ColumnMatters(where, needed, alias, c) && c in r';
    } else if k in r {
      assert ColumnMatters(where, needed, alias, k);
    }
  }

  lemma CrossJoinRows(left: seq<Row>, right: seq<Row>, alias: Option<string>, m: Row) returns (l: Row, i: nat)
    requires m in CrossJoin(left, right, alias)
    ensures l in left && i < |right| && m == Merge(l, right[i], alias)
  {
    l := FlatMapIn(left, MergeWith(right, alias), m);
    i :| 0 <= i < |right| && m == Merge(l, right[i], alias);
  }

  lemma CrossJoinAlike(where: Option<Expr>, needed: Option<set<string>>, rows: seq<Row>, item: FromItem)
    requires Alike(where, needed, rows) && SameShape(where, needed, item)
    ensures Alike(where, needed, CrossJoin(rows, item.rows, item.alias))
  {
    var joined := CrossJoin(rows, item.rows, item.alias);
    forall i, j, k | 0 <= i < |joined| && 0 <= j < |joined| && k in joined[i] && Matters(where, needed, k) ensures k in joined[j] {
      var l, a := CrossJoinRows(rows, item.rows, item.alias, joined[i]);
      var l', b := CrossJoinRows(rows, item.rows, item.alias, joined[j]);
      var n :| 0 <= n < |rows| && rows[n] == l;
      var n' :| 0 <= n' < |rows| && rows[n'] == l';
      MergedAlike(where, needed, rows[n], rows[n'], item.rows[a], item.rows[b], item.alias, k);
    }
  }

  lemma CrossJoinOk(h: Host, where: Option<Expr>, needed: Option<set<string>>, rows: seq<Row>, rest: seq<FromItem>)
    requires rest != [] && TablesOk(h, where, needed, rest) && RowsOk(h, where, needed, rows) && RowsApart(rows, rest)
    ensures var joined := CrossJoin(rows, rest[0].rows, rest[0].alias);
      RowsOk(h, where, needed, joined) && RowsApart(joined, rest[1..])
  {
    var t := rest[0];
    var joined := CrossJoin(rows, t.rows, t.alias);
    CrossJoinAlike(where, needed, rows, t);
    forall i | 0 <= i < |joined|
      ensures Coherent(joined[i]) && NoNegZeros(h, where, joined[i]) && KeysApart(joined[i].Keys, rest[1..])
    {
      var l, j := CrossJoinRows(rows, t.rows, t.alias, joined[i]);
      var n :| 0 <= n < |rows| && rows[n] == l;
      ApartFirst(l.Keys, rest);
      MergeCoherent(h, where, l, t.rows[j], t.alias);
      MergedKeysApart(l, j, rest);
    }
  }

  lemma FilterOk(h: Host, where: Option<Expr>, needed: Option<set<string>>, rows: seq<Row>, keep: Row -> bool, rest: seq<FromItem>)
    requires RowsOk(h, where, needed, rows) && RowsApart(rows, rest)
    ensures RowsOk(h, where, needed, Filter(rows, keep)) && RowsApart(Filter(rows, keep), rest)
  {
    var kept := Filter(rows, keep);
    forall i | 0 <= i < |kept| ensures exists n :: 0 <= n < |rows| && rows[n] == kept[i] {
      FilterIn(rows, keep, kept[i]);
    }
  }

  // The columns a join is made on are in every row of their side.
  lemma JoinColumnsHeld(h: Host, where: Option<Expr>, needed: Option<set<string>>, rows: seq<Row>, rest: seq<FromItem>, lc: string, rc: string)
    requires rest != [] && TablesOk(h, where, needed, rest) && RowsOk(h, where, needed, rows) && RowsApart(rows, rest)
    requires lc in KeysOf(rows) && rc in KeysOf(rest[0].rows)
    requires (lc, rc) in WherePairs(where) || (rc, lc) in WherePairs(where)
    ensures forall l :: l in rows ==> Joinable(l, rest[0].rows, lc, rc)
  {
    var right := rest[0].rows;
    assert InJoin(where, Base(lc)) && InJoin(where, Base(rc));
    assert Matters(where, needed, lc) && ColumnMatters(where, needed, rest[0].alias, rc);
    assert '.' !in rc by { assert PlainNames(right[0]); }
    BasePlain(rc);
    LowerBase(rc);
    forall l | l in rows ensures Joinable(l, right, lc, rc) {
      var n :| 0 <= n < |rows| && rows[n] == l;
      assert lc in rows[0] && lc in rows[n];
      ApartFirst(l.Keys, rest);
      forall i | 0 <= i < |right| ensures rc in right[i] && rc !in l && !LowerIn(LowBase(lc), right[i].Keys) {
        assert rc in right[0];
        assert LowerIn(LowBase(rc), ColumnsOf(right));
      }
    }
  }

  // The join chosen for the next table preserves the answer.
  lemma JoinPreserves(h: Host, where: Option<Expr>, needed: Option<set<string>>, rows: seq<Row>, rest: seq<FromItem>)
    requires h.Lawful() && rest != [] && TablesOk(h, where, needed, rest) && RowsOk(h, where, needed, rows) && RowsApart(rows, rest)
    ensures var joined := JoinNext(h, rows, rest[0], WherePairs(where));
      && RowsOk(h, where, needed, joined) && RowsApart(joined, rest[1..])
      && Pass(h, where, CrossAll(joined, rest[1..])) == Pass(h, where, CrossAll(rows, rest))
  {
    var t := rest[0];
    var key := JoinKey(WherePairs(where), KeysOf(rows), KeysOf(t.rows));
    CrossJoinOk(h, where, needed, rows, rest);
    if key.Some? {
      var (lc, rc) := key.value;
      JoinKeyIsPair(WherePairs(where), KeysOf(rows), KeysOf(t.rows));
      JoinColumnsHeld(h, where, needed, rows, rest, lc, rc);
      HashJoinIsFilter(h, rows, t.rows, lc, rc, t.alias);
      HashJoinPreserves(h, where, needed, rows, rest, lc, rc);
    }
  }

  lemma HashJoinPreserves(h: Host, where: Option<Expr>, needed: Option<set<string>>, rows: seq<Row>, rest: seq<FromItem>, lc: string, rc: string)
    requires h.Lawful() && where.Some? && rest != [] && TablesOk(h, where, needed, rest)
    requires (lc, rc) in WherePairs(where) || (rc, lc) in WherePairs(where)
    requires forall l :: l in rows ==> Joinable(l, rest[0].rows, lc, rc)
    requires var crossed := CrossJoin(rows, rest[0].rows, rest[0].alias);
      RowsOk(h, where, needed, crossed) && RowsApart(crossed, rest[1..])
    ensures var joined := Filter(CrossJoin(rows, rest[0].rows, rest[0].alias), KeysMatch(h, lc, rc));
      && RowsOk(h, where, needed, joined) && RowsApart(joined, rest[1..])
      && Pass(h, where, CrossAll(joined, rest[1..])) == Pass(h, where, CrossAll(rows, rest))
  {
    var t, keep := rest[0], KeysMatch(h, lc, rc);
    var crossed := CrossJoin(rows, t.rows, t.alias);
    TablesTail(h, where, needed, rest);
    FilterOk(h, where, needed, crossed, keep, rest[1..]);
    forall i | 0 <= i < |crossed| && !keep(crossed[i]) ensures Doomed(h, where, crossed[i], rest[1..]) {
      var l, j := CrossJoinRows(rows, t.rows, t.alias, crossed[i]);
      HashMissDooms(h, where, crossed[i], lc, rc, rest[1..]);
    }
    DropDoomed(h, where, crossed, rest[1..], keep);
  }

  // ----- rule 3: column pruning

  lemma MergeSameOn(cols: set<string>, a: Row, b: Row, r: Row, alias: Option<string>)
    requires SameOn(cols, a, b)
    ensures SameOn(cols, Merge(a, r, alias), Merge(b, r, alias))
  {
    forall n | Wanted(n, cols) ensures Lookup(Merge(a, r, alias), n) == Lookup(Merge(b, r, alias), n) {
      assert Lookup(a, n) == Lookup(b, n);
    }
  }

  lemma MergeAllSameOn(cols: set<string>, a: Row, b: Row, right: seq<Row>, alias: Option<string>)
    requires SameOn(cols, a, b)
    ensures RowsSameOn(cols, MergeAll(a, right, alias), MergeAll(b, right, alias))
  {
    forall i | 0 <= i < |right| ensures SameOn(cols, MergeAll(a, right, alias)[i], MergeAll(b, right, alias)[i]) {
      MergeSameOn(cols, a, b, right[i], alias);
    }
  }

  lemma SameOnAppend(cols: set<string>, a: seq<Row>, b: seq<Row>, c: seq<Row>, d: seq<Row>)
    requires RowsSameOn(cols, a, b) && RowsSameOn(cols, c, d)
    ensures RowsSameOn(cols, a + c, b + d)
  {
  }

  lemma {:induction false} CrossJoinSameOn(cols: set<string>, a: seq<Row>, b: seq<Row>, right: seq<Row>, alias: Option<string>)
    requires RowsSameOn(cols, a, b)
    ensures RowsSameOn(cols, CrossJoin(a, right, alias), CrossJoin(b, right, alias))
  {
    if a != [] {
      MergeAllSameOn(cols, a[0], b[0], right, alias);
      CrossJoinSameOn(cols, a[1..], b[1..], right, alias);
      SameOnAppend(cols, MergeAll(a[0], right, alias), MergeAll(b[0], right, alias),
                   CrossJoin(a[1..], right, alias), CrossJoin(b[1..], right, alias));
    }
  }

  lemma {:induction false} CrossAllSameOn(cols: set<string>, a: seq<Row>, b: seq<Row>, rest: seq<FromItem>)
    requires RowsSameOn(cols, a, b)
    ensures RowsSameOn(cols, CrossAll(a, rest), CrossAll(b, rest))
    decreases |rest|
  {
    if rest != [] {
      CrossJoinSameOn(cols, a, b, rest[0].rows, rest[0].alias);
      CrossAllSameOn(cols, CrossJoin(a, rest[0].rows, rest[0].alias), CrossJoin(b, rest[0].rows, rest[0].alias), rest[1..]);
    }
  }

  lemma CoveredSame(h: Host, cols: set<string>, e: Expr, a: Row, b: Row)
    requires SameOn(cols, a, b) && Covered(e, cols)
    ensures Eval(h, e, a) == Eval(h, e, b)
  {
    EvalLocal(h, e, a, b);
  }

  lemma {:induction false} PassSameOn(h: Host, where: Option<Expr>, cols: set<string>, a: seq<Row>, b: seq<Row>)
    requires RowsSameOn(cols, a, b) && WhereOk(where, Some(cols))
    ensures RowsSameOn(cols, Pass(h, where, a), Pass(h, where, b))
  {
    if a != [] {
      if where.Some? { CoveredSame(h, cols, where.value, a[0], b[0]); }
      PassSameOn(h, where, cols, a[1..], b[1..]);
    }
  }

  // Pruning keeps no key of the first row, or the first row has every wanted
  // key that some row has.
  ghost predicate KeepsWanted(rows: seq<Row>, cols: set<string>) {
    || (forall k :: k in KeysOf(rows) ==> !Wanted(k, cols))
    || (forall i, k :: 0 <= i < |rows| && k in rows[i] && Wanted(k, cols) ==> k in KeysOf(rows))
  }

  lemma KeptRow(row: Row, keep: set<string>, cols: set<string>)
    ensures SameOn(cols, Restrict(row, keep), row) <==> forall k :: k in row && Wanted(k, cols) ==> k in keep
  {
    if SameOn(cols, Restrict(row, keep), row) {
      forall k | k in row && Wanted(k, cols) ensures k in keep {
        assert Lookup(Restrict(row, keep), k) == Lookup(row, k);
      }
    }
  }

  // Pruning loses no wanted value exactly then.
  lemma KeepColsExact(rows: seq<Row>, cols: set<string>)
    ensures RowsSameOn(cols, KeepCols(rows, cols), rows) <==> KeepsWanted(rows, cols)
  {
    var keep := set k | k in KeysOf(rows) && Wanted(k, cols);
    if keep == {} {
      assert forall k :: k in KeysOf(rows) && Wanted(k, cols) ==> k in keep;
    } else {
      forall i | 0 <= i < |rows|
        ensures SameOn(cols, KeepCols(rows, cols)[i], rows[i]) <==> forall k :: k in rows[i] && Wanted(k, cols) ==> k in keep
      {
        KeptRow(rows[i], keep, cols);
      }
      var k :| k in keep;
      assert k in KeysOf(rows) && Wanted(k, cols);
    }
  }

  lemma AlikeKeepsWanted(where: Option<Expr>, rows: seq<Row>, cols: set<string>)
    requires Alike(where, Some(cols), rows)
    ensures KeepsWanted(rows, cols)
  {
    forall i, k | 0 <= i < |rows| && k in rows[i] && Wanted(k, cols) ensures k in KeysOf(rows) {
      assert Matters(where, Some(cols), k);
    }
  }

  lemma RestrictOk(h: Host, where: Option<Expr>, row: Row, keep: set<string>, rest: seq<FromItem>)
    requires Coherent(row) && NoNegZeros(h, where, row) && KeysApart(row.Keys, rest)
    ensures var r := Restrict(row, keep);
      Coherent(r) && NoNegZeros(h, where, r) && KeysApart(r.Keys, rest)
  {
  }

  lemma RestrictAlike(where: Option<Expr>, needed: Option<set<string>>, rows: seq<Row>, keep: set<string>)
    requires Alike(where, needed, rows)
    ensures Alike(where, needed, RestrictAll(rows, keep))
  {
    var pruned := RestrictAll(rows, keep);
    forall i, j, k | 0 <= i < |rows| && 0 <= j < |rows| && k in pruned[i] && Matters(where, needed, k) ensures k in pruned[j] {
      assert k in rows[i] && k in keep && k in rows[j];
    }
  }

  lemma KeptRowsOk(h: Host, where: Option<Expr>, rows: seq<Row>, cols: set<string>, rest: seq<FromItem>)
    requires RowsOk(h, where, Some(cols), rows) && RowsApart(rows, rest)
    ensures RowsOk(h, where, Some(cols), KeepCols(rows, cols)) && RowsApart(KeepCols(rows, cols), rest)
  {
    var keep := set k | k in KeysOf(rows) && Wanted(k, cols);
    RestrictAlike(where, Some(cols), rows, keep);
    forall i | 0 <= i < |rows| ensures var r := RestrictAll(rows, keep)[i]; Coherent(r) && NoNegZeros(h, where, r) && KeysApart(r.Keys, rest) {
      RestrictOk(h, where, rows[i], keep, rest);
    }
  }

  // Pruning columns preserves the answer on the columns that are kept.
  lemma KeepColsPreserves(h: Host, where: Option<Expr>, rows: seq<Row>, cols: set<string>, rest: seq<FromItem>)
    requires WhereOk(where, Some(cols)) && KeepsWanted(rows, cols)
    ensures RowsSameOn(cols, Pass(h, where, CrossAll(KeepCols(rows, cols), rest)), Pass(h, where, CrossAll(rows, rest)))
  {
    KeepColsExact(rows, cols);
    CrossAllSameOn(cols, KeepCols(rows, cols), rows, rest);
    PassSameOn(h, where, cols, CrossAll(KeepCols(rows, cols), rest), CrossAll(rows, rest));
  }

  // ----- the whole plan

  lemma SameAnswerTransitive(needed: Option<set<string>>, a: seq<Row>, b: seq<Row>, c: seq<Row>)
    requires SameAnswer(needed, a, b) && SameAnswer(needed, b, c)
    ensures SameAnswer(needed, a, c)
  {
    if needed.Some? {
      forall i | 0 <= i < |a| ensures SameOn(needed.value, a[i], c[i]) {
        assert SameOn(needed.value, a[i], b[i]) && SameOn(needed.value, b[i], c[i]);
      }
    }
  }

  lemma PrunePreserves(h: Host, where: Option<Expr>, needed: Option<set<string>>, rows: seq<Row>, rest: seq<FromItem>)
    requires WhereOk(where, needed) && TablesOk(h, where, needed, rest) && RowsOk(h, where, needed, rows) && RowsApart(rows, rest)
    ensures var pruned := Prune(h, rows, WhereConjuncts(where), needed);
      && RowsOk(h, where, needed, pruned) && RowsApart(pruned, rest)
      && SameAnswer(needed, Pass(h, where, CrossAll(pruned, rest)), Pass(h, where, CrossAll(rows, rest)))
  {
    var kept := PartialWhere(h, rows, WhereConjuncts(where));
    PushdownPreserves(h, where, rows, rest);
    FilterOk(h, where, needed, rows, PassesApplicable(h, WhereConjuncts(where), KeysOf(rows)), rest);
    if needed.Some? {
      AlikeKeepsWanted(where, kept, needed.value);
      KeptRowsOk(h, where, kept, needed.value, rest);
      KeepColsPreserves(h, where, kept, needed.value, rest);
    }
  }

  lemma {:induction false} JoinRestPreserves(h: Host, where: Option<Expr>, needed: Option<set<string>>, rows: seq<Row>, rest: seq<FromItem>)
    requires h.Lawful() && WhereOk(where, needed) && TablesOk(h, where, needed, rest) && RowsOk(h, where, needed, rows) && RowsApart(rows, rest)
    ensures SameAnswer(needed, Pass(h, where, JoinRest(h, rows, rest, where, needed)), Pass(h, where, CrossAll(rows, rest)))
    decreases |rest|
  {
    if rest == [] {
      if needed.Some? { assert RowsSameOn(needed.value, Pass(h, where, rows), Pass(h, where, rows)); }
    } else {
      var joined := JoinNext(h, rows, rest[0], WherePairs(where));
      var pruned := Prune(h, joined, WhereConjuncts(where), needed);
      JoinPreserves(h, where, needed, rows, rest);
      TablesTail(h, where, needed, rest);
      PrunePreserves(h, where, needed, joined, rest[1..]);
      JoinRestPreserves(h, where, needed, pruned, rest[1..]);
      SameAnswerTransitive(needed,
        Pass(h, where, JoinRest(h, pruned, rest[1..], where, needed)),
        Pass(h, where, CrossAll(pruned, rest[1..])),
        Pass(h, where, CrossAll(joined, rest[1..])));
    }
  }

  lemma BaseRowsIsJoin(item: FromItem)
    ensures BaseRows(item) == CrossJoin([map[]], item.rows, item.alias)
  {
    var f := MergeWith(item.rows, item.alias);
    var unit: seq<Row> := [map[]];
    assert FlatMap(unit, f) == f(unit[0]) + FlatMap(unit[1..], f);
  }

  // Main theorem. For every query over tables with unshared plain column names
  // whose rows agree on the columns joined on or kept, pushdown, hash joins and
  // pruning together return the rows of the cross product that pass WHERE, in
  // the same order.
  lemma PlanIsCorrect(h: Host, from: seq<FromItem>, where: Option<Expr>, needed: Option<set<string>>)
    requires |from| > 0 && Plannable(h, from, where, needed)
    ensures SameAnswer(needed, Plan(h, from, where, needed), Naive(h, from, where))
  {
    var unit: seq<Row> := [map[]];
    BaseRowsIsJoin(from[0]);
    CrossJoinOk(h, where, needed, unit, from);
    var base := BaseRows(from[0]);
    TablesTail(h, where, needed, from);
    PrunePreserves(h, where, needed, base, from[1..]);
    var pruned := Prune(h, base, WhereConjuncts(where), needed);
    JoinRestPreserves(h, where, needed, pruned, from[1..]);
    SameAnswerTransitive(needed, Plan(h, from, where, needed),
      Pass(h, where, CrossAll(pruned, from[1..])), Pass(h, where, CrossAll(base, from[1..])));
  }
}
