// The FROM/WHERE part of the in-memory SELECT executor: predicate pushdown,
// hash joins in place of cross joins, and column pruning between joins.
module Select {
  import opened Common
  import opened Json
  import opened Sql

  // One table of a comma-separated FROM list, as scanned.
  datatype FromItem = FromItem(rows: seq<Row>, alias: Option<string>)

  // ----- joining rows

  function QualifiedKey(alias: string, key: string): string {
    alias + "." + key
  }

  lemma Unqualify(alias: string, key: string)
    ensures QualifiedKey(alias, key)[|alias| + 1..] == key
  {
  }

  // The `alias.column` copies that an aliased table adds to a row.
  function Qualified(alias: Option<string>, r: Row): Row {
    if alias.None? then map[]
    else
      var keys := set k | k in r :: QualifiedKey(alias.value, k);
      assert forall s :: s in keys ==> s[|alias.value| + 1..] in r by {
        forall k | k in r ensures QualifiedKey(alias.value, k)[|alias.value| + 1..] == k {
          Unqualify(alias.value, k);
        }
      }
      map s | s in keys :: r[s[|alias.value| + 1..]]
  }

  // Columns already present win over the new table's; qualified copies are
  // always written.
  function Merge(l: Row, r: Row, alias: Option<string>): Row {
    (r + l) + Qualified(alias, r)
  }

  // A merged row has the qualified copies, then what the left row had, then
  // the new columns, in this order of precedence.
  lemma MergeLookup(l: Row, r: Row, alias: Option<string>, n: string)
    ensures var m := Merge(l, r, alias);
      && (forall k :: alias.Some? && k in r && n == alias.value + "." + k ==> Lookup(m, n) == Some(r[k]))
      && ((forall k :: alias.Some? && k in r ==> n != alias.value + "." + k) ==>
            Lookup(m, n) == if n in l then Some(l[n]) else Lookup(r, n))
  {
    if alias.Some? {
      forall k | k in r ensures QualifiedKey(alias.value, k)[|alias.value| + 1..] == k {
        Unqualify(alias.value, k);
      }
    }
  }

  function MergeTo(l: Row, alias: Option<string>): Row -> Row {
    r => Merge(l, r, alias)
  }

  function MergeAll(l: Row, right: seq<Row>, alias: Option<string>): (res: seq<Row>)
    ensures |res| == |right| && forall i :: 0 <= i < |right| ==> res[i] == Merge(l, right[i], alias)
  {
    Map(right, MergeTo(l, alias))
  }

  function MergeWith(right: seq<Row>, alias: Option<string>): Row -> seq<Row> {
    l => MergeAll(l, right, alias)
  }

  function CrossJoin(left: seq<Row>, right: seq<Row>, alias: Option<string>): seq<Row> {
    FlatMap(left, MergeWith(right, alias))
  }

  function ProbeKey(h: Host, l: Row, lc: string): string {
    if lc in l then SortKey(h, l[lc]) else ""
  }

  function HasKey(h: Host, rc: string, key: string): Row -> bool {
    r => rc in r && SortKey(h, r[rc]) == key
  }

  // The rows that one probe of the index yields.
  function Probe(h: Host, right: seq<Row>, lc: string, rc: string, alias: Option<string>): Row -> seq<Row> {
    l => MergeAll(l, Filter(right, HasKey(h, rc, ProbeKey(h, l, lc))), alias)
  }

  function HashJoin(h: Host, left: seq<Row>, right: seq<Row>, lc: string, rc: string, alias: Option<string>): seq<Row> {
    FlatMap(left, Probe(h, right, lc, rc, alias))
  }

  // ----- pushdown and pruning

  function KeysOf(rows: seq<Row>): set<string> {
    if rows == [] then {} else rows[0].Keys
  }

  // A conjunct is pushed down when it mentions a column and every column it
  // mentions matches a key of the first row.
  predicate Applicable(c: Expr, keys: set<string>) {
    Cols(c) != {} && forall col :: col in Cols(c) ==> exists k :: k in keys && KeyMatches(k, col)
  }

  function PassesApplicable(h: Host, conjuncts: seq<Expr>, keys: set<string>): Row -> bool {
    row => forall c :: c in conjuncts && Applicable(c, keys) ==> Holds(h, c, row)
  }

  function PartialWhere(h: Host, rows: seq<Row>, conjuncts: seq<Expr>): seq<Row> {
    Filter(rows, PassesApplicable(h, conjuncts, KeysOf(rows)))
  }

  function Restrict(row: Row, keep: set<string>): Row {
    map k | k in row && k in keep :: row[k]
  }

  function RestrictAll(rows: seq<Row>, keep: set<string>): (res: seq<Row>)
    ensures |res| == |rows| && forall i :: 0 <= i < |rows| ==> res[i] == Restrict(rows[i], keep)
  {
    Map(rows, row => Restrict(row, keep))
  }

  function KeepCols(rows: seq<Row>, needed: set<string>): seq<Row> {
    var keep := set k | k in KeysOf(rows) && Wanted(k, needed);
    if keep == {} then rows else RestrictAll(rows, keep)
  }

  function Prune(h: Host, rows: seq<Row>, conjuncts: seq<Expr>, needed: Option<set<string>>): seq<Row> {
    var kept := PartialWhere(h, rows, conjuncts);
    if needed.Some? then KeepCols(kept, needed.value) else kept
  }

  // ----- the plan

  function WhereConjuncts(where: Option<Expr>): seq<Expr> {
    if where.Some? then Conjuncts(where.value) else []
  }

  function WherePairs(where: Option<Expr>): seq<(string, string)> {
    if where.Some? then EqPairs(where.value) else []
  }

  // The first equality that links a known column to a column of the new table.
  function JoinKey(pairs: seq<(string, string)>, known: set<string>, right: set<string>): Option<(string, string)> {
    if pairs == [] then None
    else if pairs[0].0 in known && pairs[0].1 in right then Some(pairs[0])
    else if pairs[0].1 in known && pairs[0].0 in right then Some((pairs[0].1, pairs[0].0))
    else JoinKey(pairs[1..], known, right)
  }

  function JoinNext(h: Host, rows: seq<Row>, item: FromItem, pairs: seq<(string, string)>): seq<Row> {
    var key := JoinKey(pairs, KeysOf(rows), KeysOf(item.rows));
    if key.Some? then HashJoin(h, rows, item.rows, key.value.0, key.value.1, item.alias)
    else CrossJoin(rows, item.rows, item.alias)
  }

  function JoinRest(h: Host, rows: seq<Row>, rest: seq<FromItem>, where: Option<Expr>, needed: Option<set<string>>): seq<Row>
    decreases |rest|
  {
    if rest == [] then rows
    else
      var joined := JoinNext(h, rows, rest[0], WherePairs(where));
      JoinRest(h, Prune(h, joined, WhereConjuncts(where), needed), rest[1..], where, needed)
  }

  function WhereTest(h: Host, where: Option<Expr>): Row -> bool {
    row => where.Some? ==> Holds(h, where.value, row)
  }

  function Pass(h: Host, where: Option<Expr>, rows: seq<Row>): seq<Row> {
    Filter(rows, WhereTest(h, where))
  }

  function BaseRows(item: FromItem): seq<Row> {
    MergeAll(map[], item.rows, item.alias)
  }

  // The optimised execution.
  function Plan(h: Host, from: seq<FromItem>, where: Option<Expr>, needed: Option<set<string>>): seq<Row>
    requires |from| > 0
  {
    var base := Prune(h, BaseRows(from[0]), WhereConjuncts(where), needed);
    Pass(h, where, JoinRest(h, base, from[1..], where, needed))
  }

  // ----- what the query means

  function CrossAll(rows: seq<Row>, rest: seq<FromItem>): seq<Row>
    decreases |rest|
  {
    if rest == [] then rows else CrossAll(CrossJoin(rows, rest[0].rows, rest[0].alias), rest[1..])
  }

  // The cross product of the whole FROM list, filtered by WHERE.
  function Naive(h: Host, from: seq<FromItem>, where: Option<Expr>): seq<Row> {
    Pass(h, where, CrossAll([map[]], from))
  }

  ghost predicate SameOn(cols: set<string>, r1: Row, r2: Row) {
    forall n :: Wanted(n, cols) ==> Lookup(r1, n) == Lookup(r2, n)
  }

  ghost predicate RowsSameOn(cols: set<string>, a: seq<Row>, b: seq<Row>) {
    |a| == |b| && forall i :: 0 <= i < |a| ==> SameOn(cols, a[i], b[i])
  }

  // Equal row sequences; when columns are pruned, equal on the needed ones.
  ghost predicate SameAnswer(needed: Option<set<string>>, a: seq<Row>, b: seq<Row>) {
    match needed
    case None => a == b
    case Some(cols) => RowsSameOn(cols, a, b)
  }

  // Column names without a dot; only qualified copies contain one.
  predicate PlainNames(r: Row) {
    forall c :: c in r ==> '.' !in c
  }

  predicate PlainRows(rows: seq<Row>) {
    forall i :: 0 <= i < |rows| ==> PlainNames(rows[i])
  }

  // ----- imperative form of the joins

  // One column of the new table written into a merged row.
  function MergeColumn(m: Row, k: string, v: Value, alias: Option<string>): Row {
    var m1 := if k in m then m else m[k := v];
    if alias.Some? then m1[QualifiedKey(alias.value, k) := v] else m1
  }

  // Merging visits the new row's columns in arbitrary order, which does not
  // show: a qualified copy is written over a column of that name, and a column
  // is never written over anything.
  method MergeRow(l: Row, r: Row, alias: Option<string>) returns (merged: Row)
    ensures merged == Merge(l, r, alias)
  {
    merged := l;
    var todo := r.Keys;
    ghost var done: Row := map[];
    MergeBegins(l, r, alias);
    while todo != {}
      invariant Merging(l, r, alias, merged, done, todo)
      decreases |todo|
    {
      var k :| k in todo;
      MergeProceeds(l, r, alias, merged, done, todo, k);
      todo := todo - {k};
      merged := MergeColumn(merged, k, r[k], alias);
      done := done[k := r[k]];
    }
    MergeEnds(l, r, alias, merged, done);
  }

  // `done` holds the columns of `r` other than those still to do, and they have
  // been merged.
  ghost predicate Merging(l: Row, r: Row, alias: Option<string>, merged: Row, done: Row, todo: set<string>) {
    && todo <= r.Keys && done.Keys == r.Keys - todo
    && (forall k :: k in done ==> done[k] == r[k])
    && merged == Merge(l, done, alias)
  }

  lemma MergeBegins(l: Row, r: Row, alias: Option<string>)
    ensures Merging(l, r, alias, l, map[], r.Keys)
  {
    var none: Row := map[];
    assert none + l == l;
    assert Qualified(alias, none) == map[];
  }

  lemma MergeProceeds(l: Row, r: Row, alias: Option<string>, merged: Row, done: Row, todo: set<string>, k: string)
    requires Merging(l, r, alias, merged, done, todo) && k in todo
    ensures Merging(l, r, alias, MergeColumn(merged, k, r[k], alias), done[k := r[k]], todo - {k})
  {
    MergeOneMore(l, done, k, r[k], alias);
  }

  lemma MergeEnds(l: Row, r: Row, alias: Option<string>, merged: Row, done: Row)
    requires Merging(l, r, alias, merged, done, {})
    ensures merged == Merge(l, r, alias)
  {
    assert done == r;
  }

  lemma QualifiedHasDot(alias: string, k: string)
    ensures '.' in QualifiedKey(alias, k)
  {
    assert QualifiedKey(alias, k)[|alias|] == '.';
  }

  lemma QualifiedOneMore(done: Row, k: string, v: Value, alias: string)
    requires k !in done
    ensures Qualified(Some(alias), done[k := v]) == Qualified(Some(alias), done)[QualifiedKey(alias, k) := v]
  {
    var a, b := Qualified(Some(alias), done[k := v]), Qualified(Some(alias), done)[QualifiedKey(alias, k) := v];
    forall x | x in done[k := v] ensures QualifiedKey(alias, x)[|alias| + 1..] == x {
      Unqualify(alias, x);
    }
    assert a.Keys == b.Keys;
    Unqualify(alias, k);
  }

  lemma MergeOneMore(l: Row, done: Row, k: string, v: Value, alias: Option<string>)
    requires k !in done
    ensures Merge(l, done[k := v], alias) == MergeColumn(Merge(l, done, alias), k, v, alias)
  {
    var q := Qualified(alias, done);
    UpdateUnderUnion(done, l, k, v);
    UpdateUnderUnion(done + l, q, k, v);
    if alias.Some? {
      QualifiedOneMore(done, k, v, alias.value);
      UpdateOverUnion(done[k := v] + l, q, QualifiedKey(alias.value, k), v);
    }
  }

  lemma UpdateUnderUnion(a: Row, b: Row, k: string, v: Value)
    ensures a[k := v] + b == if k in b then a + b else (a + b)[k := v]
  {
    if k in b {
      assert a[k := v] + b == a + b;
    } else {
      assert a[k := v] + b == (a + b)[k := v];
    }
  }

  lemma UpdateOverUnion(a: Row, b: Row, k: string, v: Value)
    ensures a + b[k := v] == (a + b)[k := v]
  {
    assert a + b[k := v] == (a + b)[k := v];
  }

  predicate InRange(right: seq<Row>, idxs: seq<nat>) {
    forall j :: 0 <= j < |idxs| ==> idxs[j] < |right|
  }

  // The rows of `right` at the given positions.
  function Pick(right: seq<Row>, idxs: seq<nat>): (res: seq<Row>)
    requires InRange(right, idxs)
    ensures |res| == |idxs| && forall j :: 0 <= j < |idxs| ==> res[j] == right[idxs[j]]
  {
    seq(|idxs|, j requires 0 <= j < |idxs| => right[idxs[j]])
  }

  // What the index holds for one key after the first `n` rows of `right`.
  ghost predicate IndexedAt(h: Host, right: seq<Row>, n: nat, rc: string, index: map<string, seq<nat>>, key: string)
    requires n <= |right|
  {
    if key in index then InRange(right, index[key]) && Pick(right, index[key]) == Filter(right[..n], HasKey(h, rc, key))
    else Filter(right[..n], HasKey(h, rc, key)) == []
  }

  ghost predicate Indexes(h: Host, right: seq<Row>, n: nat, rc: string, index: map<string, seq<nat>>)
    requires n <= |right|
  {
    forall key :: IndexedAt(h, right, n, rc, index, key)
  }

  function IndexWith(h: Host, right: seq<Row>, n: nat, rc: string, index: map<string, seq<nat>>): map<string, seq<nat>>
    requires n < |right|
  {
    if rc !in right[n] then index
    else
      var key := SortKey(h, right[n][rc]);
      index[key := (if key in index then index[key] else []) + [n]]
  }

  lemma IndexedAtStep(h: Host, right: seq<Row>, n: nat, rc: string, index: map<string, seq<nat>>, key: string)
    requires n < |right| && IndexedAt(h, right, n, rc, index, key)
    ensures IndexedAt(h, right, n + 1, rc, IndexWith(h, right, n, rc, index), key)
  {
    FilterSnoc(right, n, HasKey(h, rc, key));
    if rc in right[n] && key == SortKey(h, right[n][rc]) {
      var was := if key in index then index[key] else [];
      assert Pick(right, was + [n]) == Pick(right, was) + [right[n]];
    }
  }

  lemma IndexesStep(h: Host, right: seq<Row>, n: nat, rc: string, index: map<string, seq<nat>>)
    requires n < |right| && Indexes(h, right, n, rc, index)
    ensures Indexes(h, right, n + 1, rc, IndexWith(h, right, n, rc, index))
  {
    var m, next := n + 1, IndexWith(h, right, n, rc, index);
    forall key ensures IndexedAt(h, right, m, rc, next, key) {
      IndexedAtStep(h, right, n, rc, index, key);
    }
  }

  method HashJoinTables(h: Host, left: seq<Row>, right: seq<Row>, lc: string, rc: string, alias: Option<string>)
    returns (result: seq<Row>)
    ensures result == HashJoin(h, left, right, lc, rc, alias)
  {
    var index: map<string, seq<nat>> := map[];
    for i := 0 to |right|
      invariant Indexes(h, right, i, rc, index)
    {
      IndexesStep(h, right, i, rc, index);
      if rc in right[i] {
        var key := SortKey(h, right[i][rc]);
        index := index[key := (if key in index then index[key] else []) + [i]];
      }
    }
    assert right[..|right|] == right;
    result := [];
    for li := 0 to |left|
      invariant result == HashJoin(h, left[..li], right, lc, rc, alias)
    {
      var key := ProbeKey(h, left[li], lc);
      assert IndexedAt(h, right, |right|, rc, index, key);
      var hits := [];
      if key in index {
        hits := MergeHits(left[li], right, index[key], alias);
      }
      result := result + hits;
      FlatMapSnoc(left, li, Probe(h, right, lc, rc, alias));
    }
    assert left[..|left|] == left;
  }

  method MergeHits(l: Row, right: seq<Row>, idxs: seq<nat>, alias: Option<string>) returns (result: seq<Row>)
    requires InRange(right, idxs)
    ensures result == MergeAll(l, Pick(right, idxs), alias)
  {
    result := [];
    for j := 0 to |idxs|
      invariant |result| == j
      invariant forall i :: 0 <= i < j ==> result[i] == Merge(l, right[idxs[i]], alias)
    {
      var merged := MergeRow(l, right[idxs[j]], alias);
      result := result + [merged];
    }
  }

  method CrossJoinTables(left: seq<Row>, right: seq<Row>, alias: Option<string>) returns (result: seq<Row>)
    ensures result == CrossJoin(left, right, alias)
  {
    result := [];
    for li := 0 to |left|
      invariant result == CrossJoin(left[..li], right, alias)
    {
      var out := [];
      for j := 0 to |right|
        invariant |out| == j
        invariant forall i :: 0 <= i < j ==> out[i] == Merge(left[li], right[i], alias)
      {
        var merged := MergeRow(left[li], right[j], alias);
        out := out + [merged];
      }
      assert out == MergeAll(left[li], right, alias);
      result := result + out;
      FlatMapSnoc(left, li, MergeWith(right, alias));
    }
    assert left[..|left|] == left;
  }
}
