// Hash partitioning of rows between compute nodes, and the end-to-end result:
// partial aggregation of any partition, merged in any order, is the global
// aggregation.
module Shuffle {
  import opened Common
  import opened GroupBy

  // ----- any split, any order

  function Flatten(parts: seq<seq<Row>>): seq<Row> {
    if parts == [] then [] else Flatten(parts[..|parts| - 1]) + parts[|parts| - 1]
  }

  // Each part aggregated on its own node, the partial states merged in turn.
  ghost function MergedParts(keyCols: seq<nat>, specs: seq<AggSpec>, parts: seq<seq<Row>>): (st: States)
    ensures st == StateOf(keyCols, specs, Flatten(parts))
  {
    if parts == [] then map[]
    else
      var before, last := parts[..|parts| - 1], parts[|parts| - 1];
      StatesMerged(keyCols, specs, Flatten(before), last);
      var mine, theirs := MergedParts(keyCols, specs, before), StateOf(keyCols, specs, last);
      PartlyMerged(specs, mine, theirs, theirs.Keys)
  }

  lemma {:induction false} FilterCount<T>(s: seq<T>, keep: T -> bool, x: T)
    ensures multiset(Filter(s, keep))[x] == if keep(x) then multiset(s)[x] else 0
  {
    if s != [] {
      FilterCount(s[1..], keep, x);
      assert s == [s[0]] + s[1..];
    }
  }

  lemma FilterPermuted(a: seq<Row>, b: seq<Row>, keep: Row -> bool)
    requires multiset(a) == multiset(b)
    ensures multiset(Filter(a, keep)) == multiset(Filter(b, keep))
  {
    var ma, mb := multiset(Filter(a, keep)), multiset(Filter(b, keep));
    forall x ensures ma[x] == mb[x] {
      FilterCount(a, keep, x);
      FilterCount(b, keep, x);
    }
    assert ma == mb;
  }

  lemma KeysPermuted(keyCols: seq<nat>, a: seq<Row>, b: seq<Row>)
    requires multiset(a) == multiset(b)
    ensures Keys(keyCols, a) <= Keys(keyCols, b)
  {
    forall key | key in Keys(keyCols, a) ensures key in Keys(keyCols, b) {
      var i :| 0 <= i < |a| && KeyOf(keyCols, a[i]) == key;
      assert a[i] in multiset(b);
      var j :| 0 <= j < |b| && b[j] == a[i];
    }
  }

  // The state depends on the rows only as a bag.
  lemma StatePermuted(keyCols: seq<nat>, specs: seq<AggSpec>, a: seq<Row>, b: seq<Row>)
    requires multiset(a) == multiset(b)
    ensures StateOf(keyCols, specs, a) == StateOf(keyCols, specs, b)
  {
    KeysPermuted(keyCols, a, b);
    KeysPermuted(keyCols, b, a);
    forall key ensures Summaries(specs, Filter(a, InGroup(keyCols, key))) == Summaries(specs, Filter(b, InGroup(keyCols, key))) {
      SummariesPermuted(specs, a, b, InGroup(keyCols, key));
    }
  }

  lemma SummariesPermuted(specs: seq<AggSpec>, a: seq<Row>, b: seq<Row>, keep: Row -> bool)
    requires multiset(a) == multiset(b)
    ensures Summaries(specs, Filter(a, keep)) == Summaries(specs, Filter(b, keep))
  {
    FilterPermuted(a, b, keep);
    forall i | 0 <= i < |specs| ensures Summary(specs[i].col, Filter(a, keep)) == Summary(specs[i].col, Filter(b, keep)) {
      SummaryPermuted(specs[i].col, Filter(a, keep), Filter(b, keep));
    }
  }

  // For every split of the rows into parts and every reordering, merging the
  // parts' states gives the state of aggregating all rows on one node.
  lemma DistributedEqualsGlobal(keyCols: seq<nat>, specs: seq<AggSpec>, parts: seq<seq<Row>>, rows: seq<Row>)
    requires multiset(Flatten(parts)) == multiset(rows)
    ensures MergedParts(keyCols, specs, parts) == StateOf(keyCols, specs, rows)
  {
    StatePermuted(keyCols, specs, Flatten(parts), rows);
  }

  // ----- hash partitioning

  function Magnitude(v: Option<I64>): nat {
    var x: int := if v.Some? then v.value else 0;
    if x < 0 then -x else x
  }

  // The magnitude modulo the number of partitions; NULL goes to the first.
  function HashOf(v: Option<I64>, n: nat): (p: nat)
    requires n > 0
    ensures p < n
  {
    Magnitude(v) % n
  }

  function PartOf(row: Row, keyCol: nat, n: nat): (p: nat)
    requires n > 0
    ensures p < n
  {
    HashOf(Cell(row, keyCol), n)
  }

  function InPart(keyCol: nat, n: nat, p: nat): Row -> bool
    requires n > 0
  {
    row => PartOf(row, keyCol, n) == p
  }

  function Partition(rows: seq<Row>, keyCol: nat, n: nat): (parts: seq<seq<Row>>)
    ensures n == 0 ==> parts == [rows]
    ensures n > 0 ==> |parts| == n && forall p :: 0 <= p < n ==> parts[p] == Filter(rows, InPart(keyCol, n, p))
  {
    if n == 0 then [rows] else seq(n, p requires 0 <= p < n => Filter(rows, InPart(keyCol, n, p)))
  }

  // A row with value v is in partition |v| mod n; one without a value, or
  // without the column, in the first.
  lemma PartExact(row: Row, keyCol: nat, n: nat)
    requires n > 0
    ensures keyCol < |row| && row[keyCol].Some? ==>
      PartOf(row, keyCol, n) == (if row[keyCol].value >= 0 then row[keyCol].value else 0 - row[keyCol].value) % n
    ensures keyCol >= |row| || row[keyCol].None? ==> PartOf(row, keyCol, n) == 0
  {
    ZeroPart(n);
  }

  // The shuffle's loop: each row goes to the end of its partition.
  method PartitionBatch(rows: seq<Row>, keyCol: nat, n: nat) returns (parts: seq<seq<Row>>)
    ensures parts == Partition(rows, keyCol, n)
  {
    if n == 0 { return [rows]; }
    parts := seq(n, _ => []);
    for r := 0 to |rows|
      invariant |parts| == n
      invariant forall p :: 0 <= p < n ==> parts[p] == Filter(rows[..r], InPart(keyCol, n, p))
    {
      var mine := PartOf(rows[r], keyCol, n);
      parts := parts[mine := parts[mine] + [rows[r]]];
      forall p | 0 <= p < n
        ensures Filter(rows[..r + 1], InPart(keyCol, n, p)) == Filter(rows[..r], InPart(keyCol, n, p)) + (if p == mine then [rows[r]] else [])
      {
        FilterSnoc(rows, r, InPart(keyCol, n, p));
      }
    }
    assert rows[..|rows|] == rows;
  }

  lemma {:induction false} PartitionCounts(rows: seq<Row>, keyCol: nat, n: nat, m: nat, x: Row)
    requires n > 0 && m <= n
    ensures multiset(Flatten(Partition(rows, keyCol, n)[..m]))[x] == if PartOf(x, keyCol, n) < m then multiset(rows)[x] else 0
  {
    if m > 0 {
      var parts := Partition(rows, keyCol, n);
      assert parts[..m][..m - 1] == parts[..m - 1];
      PartitionCounts(rows, keyCol, n, m - 1, x);
      FilterCount(rows, InPart(keyCol, n, m - 1), x);
    }
  }

  // Partitioning loses and duplicates no row.
  lemma PartitionConserves(rows: seq<Row>, keyCol: nat, n: nat)
    ensures multiset(Flatten(Partition(rows, keyCol, n))) == multiset(rows)
  {
    var parts := Partition(rows, keyCol, n);
    if n == 0 {
      assert [rows][..0] == [];
    } else {
      assert parts[..n] == parts;
      forall x ensures multiset(Flatten(parts))[x] == multiset(rows)[x] {
        PartitionCounts(rows, keyCol, n, n, x);
      }
    }
  }

  // Shuffle by any column into any number of partitions, aggregate each, merge:
  // the result is the global aggregation.
  lemma ShuffledAggregation(keyCols: seq<nat>, specs: seq<AggSpec>, rows: seq<Row>, keyCol: nat, n: nat)
    ensures MergedParts(keyCols, specs, Partition(rows, keyCol, n)) == StateOf(keyCols, specs, rows)
  {
    PartitionConserves(rows, keyCol, n);
    DistributedEqualsGlobal(keyCols, specs, Partition(rows, keyCol, n), rows);
  }

  // ----- when partitions own their groups

  // No group has rows in two partitions.
  ghost predicate GroupsApart(keyCols: seq<nat>, rows: seq<Row>, keyCol: nat, n: nat)
    requires n > 0
  {
    forall i, j :: 0 <= i < |rows| && 0 <= j < |rows| && KeyOf(keyCols, rows[i]) == KeyOf(keyCols, rows[j]) ==>
      PartOf(rows[i], keyCol, n) == PartOf(rows[j], keyCol, n)
  }

  // Two rows of one group of which one has no value in the column and the other
  // has the smallest integer, which NULL is encoded as.
  predicate Mixed(keyCols: seq<nat>, rows: seq<Row>, col: nat, i: nat, j: nat) {
    && i < |rows| && j < |rows| && KeyOf(keyCols, rows[i]) == KeyOf(keyCols, rows[j])
    && Cell(rows[i], col).None? && Cell(rows[j], col) == Some(I64_MIN)
  }

  lemma ZeroPart(n: nat)
    requires n > 0
    ensures 0 % n == 0
  {
  }

  lemma HashOfSmallest(n: nat)
    requires n > 0
    ensures HashOf(None, n) == HashOf(Some(I64_MIN), n) <==> TWO63 % n == 0
  {
    assert Magnitude(None) == 0 && Magnitude(Some(I64_MIN)) == TWO63;
    ZeroPart(n);
  }

  // Rows of one group hash apart only as NULL and the smallest integer.
  lemma SameGroupPart(keyCols: seq<nat>, k: nat, rows: seq<Row>, i: nat, j: nat, n: nat)
    requires n > 0 && k < |keyCols| && i < |rows| && j < |rows| && KeyOf(keyCols, rows[i]) == KeyOf(keyCols, rows[j])
    ensures PartOf(rows[i], keyCols[k], n) == PartOf(rows[j], keyCols[k], n) <==>
      TWO63 % n == 0 || (!Mixed(keyCols, rows, keyCols[k], i, j) && !Mixed(keyCols, rows, keyCols[k], j, i))
  {
    SameKeyExact(keyCols, rows[i], rows[j]);
    assert KeyCell(rows[i], keyCols[k]) == KeyCell(rows[j], keyCols[k]);
    HashOfSmallest(n);
  }

  ghost predicate Unmixed(keyCols: seq<nat>, rows: seq<Row>, col: nat) {
    forall i, j :: 0 <= i < |rows| && 0 <= j < |rows| ==> !Mixed(keyCols, rows, col, i, j)
  }

  // Shuffling by a group column keeps every group in one partition if and only
  // if the number of partitions divides 2^63 or no group mixes NULL and the
  // smallest integer in that column.
  lemma ShuffleApartExact(keyCols: seq<nat>, k: nat, rows: seq<Row>, n: nat)
    requires n > 0 && k < |keyCols|
    ensures GroupsApart(keyCols, rows, keyCols[k], n) <==> TWO63 % n == 0 || Unmixed(keyCols, rows, keyCols[k])
  {
    var col := keyCols[k];
    if TWO63 % n == 0 || Unmixed(keyCols, rows, col) {
      forall i, j | 0 <= i < |rows| && 0 <= j < |rows| && KeyOf(keyCols, rows[i]) == KeyOf(keyCols, rows[j])
        ensures PartOf(rows[i], col, n) == PartOf(rows[j], col, n)
      {
        SameGroupPart(keyCols, k, rows, i, j, n);
      }
    } else {
      var i, j :| 0 <= i < |rows| && 0 <= j < |rows| && Mixed(keyCols, rows, col, i, j);
      SameGroupPart(keyCols, k, rows, i, j, n);
    }
  }

  // So for all rows at once it holds exactly for the partition counts that
  // divide 2^63.
  lemma ShuffleAlwaysApart(keyCols: seq<nat>, k: nat, n: nat)
    requires n > 0 && k < |keyCols|
    ensures (forall rows :: GroupsApart(keyCols, rows, keyCols[k], n)) <==> TWO63 % n == 0
  {
    if TWO63 % n == 0 {
      forall rows ensures GroupsApart(keyCols, rows, keyCols[k], n) {
        ShuffleApartExact(keyCols, k, rows, n);
      }
    } else {
      var rows := MixedGroup(keyCols, keyCols[k]);
      ShuffleApartExact(keyCols, k, rows, n);
      assert Mixed(keyCols, rows, keyCols[k], 0, 1);
    }
  }

  lemma MixedGroup(keyCols: seq<nat>, col: nat) returns (rows: seq<Row>)
    ensures |rows| == 2 && Mixed(keyCols, rows, col, 0, 1)
  {
    var r: Row := seq(col + 1, _ => None);
    var s: Row := r[col := Some(I64_MIN)];
    assert forall c: nat :: KeyCell(r, c) == KeyCell(s, c);
    SameKeyExact(keyCols, r, s);
    rows := [r, s];
    assert rows[0] == r && rows[1] == s;
  }

  // ----- the emitted records

  // What a record of the output says about its group.
  ghost predicate RecordOf(keyCols: seq<nat>, specs: seq<AggSpec>, rows: seq<Row>, row: Row, rec: Record) {
    var g := Filter(rows, InGroup(keyCols, KeyOf(keyCols, row)));
    && |rec.keys| == |keyCols| && (forall k :: 0 <= k < |keyCols| ==> rec.keys[k] == KeyCell(row, keyCols[k]))
    && |rec.aggs| == |specs| && (forall i :: 0 <= i < |specs| ==> AggregateIs(specs[i], g, rec.aggs[i]))
  }

  ghost predicate AggregateIs(spec: AggSpec, g: seq<Row>, v: int) {
    var any := Filter(g, NonNull(spec.col)) != [];
    match spec.op
    case Sum => v == Wrap(Total(spec.col, g))
    case Count => v == |Filter(g, NonNull(spec.col))|
    case CountDistinct => v == |Filter(g, NonNull(spec.col))|
    case Min => if any then -TWO63 <= v < TWO63 && IsLeast(spec.col, g, Some(v)) else v == 0
    case Max => if any then -TWO63 <= v < TWO63 && IsGreatest(spec.col, g, Some(v)) else v == 0
  }

  lemma AnyNonNull(col: nat, g: seq<Row>, m: Option<I64>)
    requires IsLeast(col, g, m) || IsGreatest(col, g, m)
    ensures m.Some? <==> Filter(g, NonNull(col)) != []
  {
    if m.Some? {
      var i :| 0 <= i < |g| && Cell(g[i], col) == m;
      FilterIn(g, NonNull(col), g[i]);
    }
    if Filter(g, NonNull(col)) != [] {
      var x := Filter(g, NonNull(col))[0];
      FilterIn(g, NonNull(col), x);
      var i :| 0 <= i < |g| && g[i] == x;
    }
  }

  lemma AggregateCorrect(spec: AggSpec, g: seq<Row>)
    ensures AggregateIs(spec, g, Summary(spec.col, g).Result(spec.op))
  {
    var s := Summary(spec.col, g);
    SumAndCount(spec.col, g);
    MinAndMax(spec.col, g);
    AnyNonNull(spec.col, g, s.min);
    AnyNonNull(spec.col, g, s.max);
  }

  // Finishing emits exactly one record per distinct group key; each decodes to
  // the group cells and carries each aggregate of exactly that group's rows.
  lemma FinishIsCorrect(keyCols: seq<nat>, specs: seq<AggSpec>, rows: seq<Row>, order: seq<Key>)
    requires ListsOnce(order, StateOf(keyCols, specs, rows).Keys)
    ensures var out := FinishRows(keyCols, specs, order, StateOf(keyCols, specs, rows));
      && |out| == |order|
      && ListsOnce(order, Keys(keyCols, rows))
      && forall i, j :: 0 <= i < |out| && 0 <= j < |rows| && order[i] == KeyOf(keyCols, rows[j]) ==>
           RecordOf(keyCols, specs, rows, rows[j], out[i])
  {
    var st := StateOf(keyCols, specs, rows);
    var out := FinishRows(keyCols, specs, order, st);
    assert st.Keys == Keys(keyCols, rows);
    forall i, j | 0 <= i < |out| && 0 <= j < |rows| && order[i] == KeyOf(keyCols, rows[j])
      ensures RecordOf(keyCols, specs, rows, rows[j], out[i])
    {
      FinishOne(keyCols, specs, rows, rows[j]);
    }
  }

  lemma FinishOne(keyCols: seq<nat>, specs: seq<AggSpec>, rows: seq<Row>, row: Row)
    ensures var key := KeyOf(keyCols, row);
      RecordOf(keyCols, specs, rows, row, FinishRow(keyCols, specs, key, Entry(specs, StateOf(keyCols, specs, rows), key)))
  {
    var key := KeyOf(keyCols, row);
    var rec := FinishRow(keyCols, specs, key, Entry(specs, StateOf(keyCols, specs, rows), key));
    var g := Filter(rows, InGroup(keyCols, key));
    EntryOf(keyCols, specs, rows, key);
    forall k | 0 <= k < |keyCols| ensures rec.keys[k] == KeyCell(row, keyCols[k]) {
      KeyColumnInverse(keyCols, row, k);
    }
    forall i | 0 <= i < |specs| ensures AggregateIs(specs[i], g, rec.aggs[i]) {
      AggregateCorrect(specs[i], g);
    }
  }

  // ----- COUNT(DISTINCT)

  function DistinctValues(col: nat, g: seq<Row>): set<I64> {
    set i | 0 <= i < |g| && Cell(g[i], col).Some? :: Cell(g[i], col).value
  }

  ghost predicate NoRepeats(col: nat, g: seq<Row>) {
    forall i, j :: 0 <= i < j < |g| && Cell(g[i], col).Some? ==> Cell(g[i], col) != Cell(g[j], col)
  }

  // The aggregator answers COUNT(DISTINCT) with the plain count, which is right
  // if and only if the group has no repeated non-null value; otherwise it is
  // too large.
  lemma {:induction false} CountDistinctExact(col: nat, g: seq<Row>)
    ensures Summary(col, g).Result(CountDistinct) >= |DistinctValues(col, g)|
    ensures Summary(col, g).Result(CountDistinct) == |DistinctValues(col, g)| <==> NoRepeats(col, g)
  {
    if g != [] {
      var rest, v := g[1..], Cell(g[0], col);
      SummaryCons(col, g);
      CountDistinctExact(col, rest);
      DistinctCons(col, g);
      NoRepeatsCons(col, g);
    }
  }

  lemma NoRepeatsCons(col: nat, g: seq<Row>)
    requires g != []
    ensures var v := Cell(g[0], col);
      NoRepeats(col, g) <==> NoRepeats(col, g[1..]) && (v.Some? ==> v.value !in DistinctValues(col, g[1..]))
  {
    var rest, v := g[1..], Cell(g[0], col);
    assert forall i :: 0 <= i < |rest| ==> rest[i] == g[i + 1];
    if NoRepeats(col, rest) && (v.Some? ==> v.value !in DistinctValues(col, rest)) {
      forall i, j | 0 <= i < j < |g| && Cell(g[i], col).Some? ensures Cell(g[i], col) != Cell(g[j], col) {
        assert g[j] == rest[j - 1];
        if i > 0 { assert g[i] == rest[i - 1]; }
      }
    }
  }

  lemma DistinctCons(col: nat, g: seq<Row>)
    requires g != []
    ensures DistinctValues(col, g) == DistinctValues(col, g[1..]) + (if Cell(g[0], col).Some? then {Cell(g[0], col).value} else {})
  {
    var rest := g[1..];
    forall x | x in DistinctValues(col, g) ensures x in DistinctValues(col, rest) || (Cell(g[0], col).Some? && x == Cell(g[0], col).value) {
      var i :| 0 <= i < |g| && Cell(g[i], col).Some? && x == Cell(g[i], col).value;
      if i > 0 { assert rest[i - 1] == g[i]; }
    }
    forall x | x in DistinctValues(col, rest) ensures x in DistinctValues(col, g) {
      var i :| 0 <= i < |rest| && Cell(rest[i], col).Some? && x == Cell(rest[i], col).value;
      assert g[i + 1] == rest[i];
    }
  }
}
