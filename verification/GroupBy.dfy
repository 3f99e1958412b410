// Distributed GROUP BY on the compute nodes: partial states per node, merging
// of partial states, and hash partitioning of rows.
module GroupBy {
  import opened Common

  const TWO63: int := 0x8000_0000_0000_0000
  const TWO64: int := 0x1_0000_0000_0000_0000

  type I64 = x: int | -TWO63 <= x < TWO63
  type Byte = x: int | 0 <= x < 256
  datatype Key = Key(bytes: seq<Byte>)

  const I64_MIN: I64 := -TWO63

  // Cells that are missing, null or not 64-bit integers read as None.
  type Row = seq<Option<I64>>

  datatype AggOp = Sum | Count | CountDistinct | Min | Max

  datatype AggSpec = AggSpec(col: nat, op: AggOp)

  function Cell(row: Row, col: nat): Option<I64> {
    if col < |row| then row[col] else None
  }

  // Two's complement wrap-around of 64-bit addition.
  function Wrap(x: int): I64 {
    (x + TWO63) % TWO64 - TWO63
  }

  // ----- per-group state

  datatype GroupState = GroupState(sum: I64, count: nat, min: Option<I64>, max: Option<I64>) {
    function Updated(v: Option<I64>): GroupState {
      if v.None? then this
      else GroupState(Wrap(sum + v.value), count + 1, Least(min, v), Greatest(max, v))
    }

    function Merged(o: GroupState): GroupState {
      GroupState(Wrap(sum + o.sum), count + o.count, Least(min, o.min), Greatest(max, o.max))
    }

    function Result(op: AggOp): int {
      match op
      case Sum => sum
      case Count => count
      case CountDistinct => count
      case Min => if min.Some? then min.value else 0
      case Max => if max.Some? then max.value else 0
    }
  }

  function Least(a: Option<I64>, b: Option<I64>): Option<I64> {
    if a.None? then b else if b.None? then a else if a.value <= b.value then a else b
  }

  function Greatest(a: Option<I64>, b: Option<I64>): Option<I64> {
    if a.None? then b else if b.None? then a else if a.value >= b.value then a else b
  }

  const EMPTY := GroupState(0, 0, None, None)

  // The state of one aggregate after seeing these rows.
  function Summary(col: nat, rows: seq<Row>): GroupState {
    if rows == [] then EMPTY
    else Summary(col, rows[..|rows| - 1]).Updated(Cell(rows[|rows| - 1], col))
  }

  // ----- what the state means

  function Total(col: nat, rows: seq<Row>): int {
    if rows == [] then 0
    else (if Cell(rows[0], col).Some? then Cell(rows[0], col).value else 0) + Total(col, rows[1..])
  }

  function NonNull(col: nat): Row -> bool {
    row => Cell(row, col).Some?
  }

  lemma WrapAdd(a: int, b: int)
    ensures Wrap(Wrap(a) + b) == Wrap(a + b) && Wrap(a + Wrap(b)) == Wrap(a + b)
  {
  }

  lemma WrapId(x: I64)
    ensures Wrap(x) == x
  {
  }

  lemma ExtremeLaws(a: Option<I64>, b: Option<I64>, c: Option<I64>)
    ensures Least(a, b) == Least(b, a) && Least(Least(a, b), c) == Least(a, Least(b, c))
    ensures Greatest(a, b) == Greatest(b, a) && Greatest(Greatest(a, b), c) == Greatest(a, Greatest(b, c))
  {
  }

  lemma MergedCommutes(a: GroupState, b: GroupState)
    ensures a.Merged(b) == b.Merged(a)
  {
    ExtremeLaws(a.min, b.min, None);
    ExtremeLaws(a.max, b.max, None);
  }

  lemma MergedAssociates(a: GroupState, b: GroupState, c: GroupState)
    ensures a.Merged(b).Merged(c) == a.Merged(b.Merged(c))
  {
    ExtremeLaws(a.min, b.min, c.min);
    ExtremeLaws(a.max, b.max, c.max);
    WrapAdd(a.sum + b.sum, c.sum);
    WrapAdd(a.sum, b.sum + c.sum);
  }

  lemma EmptyMerged(a: GroupState)
    ensures EMPTY.Merged(a) == a && a.Merged(EMPTY) == a
  {
    WrapId(a.sum);
  }

  lemma UpdatedIsMerged(a: GroupState, v: Option<I64>)
    ensures a.Updated(v) == a.Merged(EMPTY.Updated(v))
  {
    if v.Some? { WrapId(v.value); } else { EmptyMerged(a); }
  }

  // Summarising is additive: two partial states merge into the state of all rows.
  lemma {:induction false} SummaryAppend(col: nat, a: seq<Row>, b: seq<Row>)
    ensures Summary(col, a + b) == Summary(col, a).Merged(Summary(col, b))
  {
    if b == [] {
      assert a + b == a;
      EmptyMerged(Summary(col, a));
    } else {
      var init, last := b[..|b| - 1], Cell(b[|b| - 1], col);
      assert (a + b)[..|a + b| - 1] == a + init;
      SummaryAppend(col, a, init);
      UpdatedIsMerged(Summary(col, a + init), last);
      UpdatedIsMerged(Summary(col, init), last);
      MergedAssociates(Summary(col, a), Summary(col, init), EMPTY.Updated(last));
    }
  }

  lemma SummaryOne(col: nat, row: Row)
    ensures Summary(col, [row]) == EMPTY.Updated(Cell(row, col))
  {
    assert [row][..0] == [];
  }

  lemma SummaryCons(col: nat, rows: seq<Row>)
    requires rows != []
    ensures Summary(col, rows) == EMPTY.Updated(Cell(rows[0], col)).Merged(Summary(col, rows[1..]))
  {
    assert rows == [rows[0]] + rows[1..];
    SummaryAppend(col, [rows[0]], rows[1..]);
    SummaryOne(col, rows[0]);
  }

  // SUM is the sum of the non-null cells, wrapped to 64 bits; COUNT counts them.
  lemma {:induction false} SumAndCount(col: nat, rows: seq<Row>)
    ensures Summary(col, rows).sum == Wrap(Total(col, rows))
    ensures Summary(col, rows).count == |Filter(rows, NonNull(col))|
  {
    if rows != [] {
      SummaryCons(col, rows);
      SumAndCount(col, rows[1..]);
      var v := Cell(rows[0], col);
      var x := if v.Some? then v.value else 0;
      WrapId(x);
      WrapAdd(x, Total(col, rows[1..]));
    }
  }

  ghost predicate IsLeast(col: nat, rows: seq<Row>, m: Option<I64>) {
    && (m.Some? ==> exists i :: 0 <= i < |rows| && Cell(rows[i], col) == m)
    && forall i :: 0 <= i < |rows| && Cell(rows[i], col).Some? ==> m.Some? && m.value <= Cell(rows[i], col).value
  }

  ghost predicate IsGreatest(col: nat, rows: seq<Row>, m: Option<I64>) {
    && (m.Some? ==> exists i :: 0 <= i < |rows| && Cell(rows[i], col) == m)
    && forall i :: 0 <= i < |rows| && Cell(rows[i], col).Some? ==> m.Some? && m.value >= Cell(rows[i], col).value
  }

  // MIN and MAX are attained and bound every non-null cell.
  lemma {:induction false} MinAndMax(col: nat, rows: seq<Row>)
    ensures IsLeast(col, rows, Summary(col, rows).min) && IsGreatest(col, rows, Summary(col, rows).max)
  {
    if rows != [] {
      var rest := rows[1..];
      SummaryCons(col, rows);
      MinAndMax(col, rest);
      var v := Cell(rows[0], col);
      ExtremeCons(col, rows, Summary(col, rest).min, Summary(col, rest).max);
    }
  }

  lemma ExtremeCons(col: nat, rows: seq<Row>, lo: Option<I64>, hi: Option<I64>)
    requires rows != [] && IsLeast(col, rows[1..], lo) && IsGreatest(col, rows[1..], hi)
    ensures IsLeast(col, rows, Least(Cell(rows[0], col), lo))
    ensures IsGreatest(col, rows, Greatest(Cell(rows[0], col), hi))
  {
    var rest := rows[1..];
    assert forall i :: 0 <= i < |rest| ==> rest[i] == rows[i + 1];
    forall i | 0 < i < |rows| ensures rows[i] == rest[i - 1] {}
    if lo.Some? {
      var i :| 0 <= i < |rest| && Cell(rest[i], col) == lo;
      assert Cell(rows[i + 1], col) == lo;
    }
    if hi.Some? {
      var i :| 0 <= i < |rest| && Cell(rest[i], col) == hi;
      assert Cell(rows[i + 1], col) == hi;
    }
  }

  // The order of the rows does not matter.
  lemma {:induction false} SummaryPermuted(col: nat, a: seq<Row>, b: seq<Row>)
    requires multiset(a) == multiset(b)
    ensures Summary(col, a) == Summary(col, b)
  {
    if a == [] {
      PermutedEmpty(b);
    } else {
      var j := PermutedHead(a, b);
      SummaryPermuted(col, a[1..], Dropped(b, j));
      SummaryCons(col, a);
      SummaryDropped(col, b, j);
    }
  }

  lemma SummaryDropped(col: nat, b: seq<Row>, j: nat)
    requires j < |b|
    ensures Summary(col, b) == EMPTY.Updated(Cell(b[j], col)).Merged(Summary(col, Dropped(b, j)))
  {
    var p, x, q := b[..j], [b[j]], b[j + 1..];
    assert b == p + (x + q);
    SummaryAppend(col, p, x + q);
    SummaryAppend(col, x, q);
    SummaryAppend(col, p, q);
    SummaryOne(col, b[j]);
    var sp, sx, sq := Summary(col, p), Summary(col, x), Summary(col, q);
    MergedAssociates(sp, sx, sq);
    MergedCommutes(sp, sx);
    MergedAssociates(sx, sp, sq);
  }

  // ----- group keys

  function Pow256(n: nat): nat {
    if n == 0 then 1 else 256 * Pow256(n - 1)
  }

  function LittleEndian(u: nat, n: nat): (bs: seq<Byte>)
    ensures |bs| == n
    decreases n
  {
    if n == 0 then [] else [u % 256] + LittleEndian(u / 256, n - 1)
  }

  function FromLittleEndian(bs: seq<Byte>): nat {
    if bs == [] then 0 else bs[0] + 256 * FromLittleEndian(bs[1..])
  }

  lemma {:induction false} LittleEndianInverse(u: nat, n: nat)
    requires u < Pow256(n)
    ensures FromLittleEndian(LittleEndian(u, n)) == u
    decreases n
  {
    if n > 0 {
      assert u / 256 < Pow256(n - 1);
      LittleEndianInverse(u / 256, n - 1);
      assert LittleEndian(u, n)[1..] == LittleEndian(u / 256, n - 1);
    }
  }

  function EncodeI64(v: I64): (bs: seq<Byte>)
    ensures |bs| == 8
  {
    LittleEndian(if v < 0 then v + TWO64 else v, 8)
  }

  function DecodeI64(bs: seq<Byte>): I64 {
    Wrap(FromLittleEndian(bs))
  }

  lemma EncodeInverse(v: I64)
    ensures DecodeI64(EncodeI64(v)) == v
  {
    assert Pow256(8) == TWO64 by {
      assert Pow256(1) == 256;
      assert Pow256(2) == 65536;
      assert Pow256(4) == 4294967296 by { assert Pow256(3) == 16777216; }
      assert Pow256(6) == 281474976710656 by { assert Pow256(5) == 1099511627776; }
      assert Pow256(7) == 72057594037927936;
    }
    LittleEndianInverse(if v < 0 then v + TWO64 else v, 8);
  }

  // A NULL group cell is encoded as the smallest integer.
  function KeyCell(row: Row, col: nat): I64 {
    if Cell(row, col).Some? then Cell(row, col).value else I64_MIN
  }

  function KeyBytes(keyCols: seq<nat>, row: Row): (k: seq<Byte>)
    ensures |k| == 8 * |keyCols|
  {
    if keyCols == [] then [] else EncodeI64(KeyCell(row, keyCols[0])) + KeyBytes(keyCols[1..], row)
  }

  function KeyOf(keyCols: seq<nat>, row: Row): Key {
    Key(KeyBytes(keyCols, row))
  }

  // One key column read back from the serialised key.
  function DecodeColumn(key: Key, k: nat): I64 {
    if 8 * k + 8 <= |key.bytes| then DecodeI64(key.bytes[8 * k..8 * k + 8]) else 0
  }

  function Flat(chunks: seq<seq<Byte>>): seq<Byte> {
    if chunks == [] then [] else chunks[0] + Flat(chunks[1..])
  }

  lemma {:induction false} FlatSlice(chunks: seq<seq<Byte>>, k: nat)
    requires k < |chunks| && forall i :: 0 <= i < |chunks| ==> |chunks[i]| == 8
    ensures 8 * k + 8 <= |Flat(chunks)| && Flat(chunks)[8 * k..8 * k + 8] == chunks[k]
  {
    var rest := Flat(chunks[1..]);
    if k > 0 {
      FlatSlice(chunks[1..], k - 1);
      assert Flat(chunks)[8 * k..8 * k + 8] == rest[8 * k - 8..8 * k];
    }
  }

  function Encoded(keyCols: seq<nat>, row: Row): seq<seq<Byte>> {
    seq(|keyCols|, i requires 0 <= i < |keyCols| => EncodeI64(KeyCell(row, keyCols[i])))
  }

  lemma {:induction false} KeyBytesFlat(keyCols: seq<nat>, row: Row)
    ensures KeyBytes(keyCols, row) == Flat(Encoded(keyCols, row))
  {
    if keyCols != [] {
      KeyBytesFlat(keyCols[1..], row);
      assert Encoded(keyCols, row)[1..] == Encoded(keyCols[1..], row);
    }
  }

  lemma KeySlice(keyCols: seq<nat>, row: Row, k: nat)
    requires k < |keyCols|
    ensures KeyBytes(keyCols, row)[8 * k..8 * k + 8] == EncodeI64(KeyCell(row, keyCols[k]))
  {
    KeyBytesFlat(keyCols, row);
    FlatSlice(Encoded(keyCols, row), k);
  }

  // The serialised key reads back as every group cell it was made from.
  lemma KeyColumnInverse(keyCols: seq<nat>, row: Row, k: nat)
    requires k < |keyCols|
    ensures DecodeColumn(KeyOf(keyCols, row), k) == KeyCell(row, keyCols[k])
  {
    KeySlice(keyCols, row, k);
    EncodeInverse(KeyCell(row, keyCols[k]));
  }

  // Two rows are in one group exactly when their group cells agree, NULL
  // counting as the smallest integer.
  lemma {:induction false} SameKeyExact(keyCols: seq<nat>, r: Row, s: Row)
    ensures KeyOf(keyCols, r) == KeyOf(keyCols, s) <==>
      forall k :: 0 <= k < |keyCols| ==> KeyCell(r, keyCols[k]) == KeyCell(s, keyCols[k])
  {
    if KeyOf(keyCols, r) == KeyOf(keyCols, s) {
      forall k | 0 <= k < |keyCols| ensures KeyCell(r, keyCols[k]) == KeyCell(s, keyCols[k]) {
        KeyColumnInverse(keyCols, r, k);
        KeyColumnInverse(keyCols, s, k);
      }
    } else if keyCols != [] {
      SameKeyExact(keyCols[1..], r, s);
    }
  }

  // ----- the whole state

  type States = map<Key, seq<GroupState>>

  function InGroup(keyCols: seq<nat>, key: Key): Row -> bool {
    row => KeyOf(keyCols, row) == key
  }

  function Keys(keyCols: seq<nat>, rows: seq<Row>): set<Key> {
    set i | 0 <= i < |rows| :: KeyOf(keyCols, rows[i])
  }

  function Summaries(specs: seq<AggSpec>, rows: seq<Row>): (ss: seq<GroupState>)
    ensures |ss| == |specs| && forall i :: 0 <= i < |specs| ==> ss[i] == Summary(specs[i].col, rows)
  {
    seq(|specs|, i requires 0 <= i < |specs| => Summary(specs[i].col, rows))
  }

  // The reference: one entry per distinct key, each aggregate computed over
  // exactly the rows of its group.
  function StateOf(keyCols: seq<nat>, specs: seq<AggSpec>, rows: seq<Row>): States {
    map key | key in Keys(keyCols, rows) :: Summaries(specs, Filter(rows, InGroup(keyCols, key)))
  }

  // Aggregate by aggregate, for as many as both have.
  function MergeSummaries(a: seq<GroupState>, b: seq<GroupState>): (ss: seq<GroupState>)
    ensures |ss| == |a| && forall i :: 0 <= i < |a| ==> ss[i] == if i < |b| then a[i].Merged(b[i]) else a[i]
  {
    seq(|a|, i requires 0 <= i < |a| => if i < |b| then a[i].Merged(b[i]) else a[i])
  }

  function Blank(specs: seq<AggSpec>): (ss: seq<GroupState>)
    ensures |ss| == |specs| && forall i :: 0 <= i < |specs| ==> ss[i] == EMPTY
  {
    seq(|specs|, i => EMPTY)
  }

  lemma SummariesAppend(specs: seq<AggSpec>, a: seq<Row>, b: seq<Row>)
    ensures Summaries(specs, a + b) == MergeSummaries(Summaries(specs, a), Summaries(specs, b))
  {
    forall i | 0 <= i < |specs| ensures Summary(specs[i].col, a + b) == Summary(specs[i].col, a).Merged(Summary(specs[i].col, b)) {
      SummaryAppend(specs[i].col, a, b);
    }
  }

  lemma BlankMerged(specs: seq<AggSpec>, ss: seq<GroupState>)
    requires |ss| == |specs|
    ensures MergeSummaries(Blank(specs), ss) == ss && MergeSummaries(ss, Blank(specs)) == ss
    ensures Summaries(specs, []) == Blank(specs)
  {
    forall i | 0 <= i < |ss| ensures EMPTY.Merged(ss[i]) == ss[i] && ss[i].Merged(EMPTY) == ss[i] {
      EmptyMerged(ss[i]);
    }
  }

  function Entry(specs: seq<AggSpec>, st: States, key: Key): seq<GroupState> {
    if key in st then st[key] else Blank(specs)
  }

  // A group without rows has the blank summary, so absent and blank agree.
  lemma EntryOf(keyCols: seq<nat>, specs: seq<AggSpec>, rows: seq<Row>, key: Key)
    ensures Entry(specs, StateOf(keyCols, specs, rows), key) == Summaries(specs, Filter(rows, InGroup(keyCols, key)))
  {
    if key !in Keys(keyCols, rows) {
      FilterNone(rows, InGroup(keyCols, key));
      BlankMerged(specs, Blank(specs));
    }
  }

  lemma EntryAppend(keyCols: seq<nat>, specs: seq<AggSpec>, a: seq<Row>, b: seq<Row>, key: Key)
    ensures |Entry(specs, StateOf(keyCols, specs, a), key)| == |specs| == |Entry(specs, StateOf(keyCols, specs, b), key)|
    ensures Entry(specs, StateOf(keyCols, specs, a + b), key)
         == MergeSummaries(Entry(specs, StateOf(keyCols, specs, a), key), Entry(specs, StateOf(keyCols, specs, b), key))
  {
    EntryOf(keyCols, specs, a, key);
    EntryOf(keyCols, specs, b, key);
    EntryOf(keyCols, specs, a + b, key);
    FilterAppend(a, b, InGroup(keyCols, key));
    SummariesAppend(specs, Filter(a, InGroup(keyCols, key)), Filter(b, InGroup(keyCols, key)));
  }

  lemma KeysAppend(keyCols: seq<nat>, a: seq<Row>, b: seq<Row>)
    ensures Keys(keyCols, a + b) == Keys(keyCols, a) + Keys(keyCols, b)
  {
    forall key ensures key in Keys(keyCols, a + b) <==> key in Keys(keyCols, a) + Keys(keyCols, b) {
      if key in Keys(keyCols, a) {
        var i :| 0 <= i < |a| && KeyOf(keyCols, a[i]) == key;
        assert (a + b)[i] == a[i];
      }
      if key in Keys(keyCols, b) {
        var i :| 0 <= i < |b| && KeyOf(keyCols, b[i]) == key;
        assert (a + b)[|a| + i] == b[i];
      }
    }
  }

  // A state is determined by its keys and entries.
  lemma StatesEqual(specs: seq<AggSpec>, a: States, b: States)
    requires a.Keys == b.Keys && forall key :: Entry(specs, a, key) == Entry(specs, b, key)
    ensures a == b
  {
    forall key | key in a ensures a[key] == b[key] {
      assert Entry(specs, a, key) == Entry(specs, b, key);
    }
  }

  // ----- the aggregator

  function At(states: seq<GroupState>, i: nat): GroupState {
    if i < |states| then states[i] else EMPTY
  }

  function UpdatedAll(specs: seq<AggSpec>, states: seq<GroupState>, row: Row): (ss: seq<GroupState>)
    ensures |ss| == |specs| && forall i :: 0 <= i < |specs| ==> ss[i] == At(states, i).Updated(Cell(row, specs[i].col))
  {
    seq(|specs|, i requires 0 <= i < |specs| => At(states, i).Updated(Cell(row, specs[i].col)))
  }

  // The state after one more row, written the way the aggregator does it.
  function AfterRow(keyCols: seq<nat>, specs: seq<AggSpec>, st: States, row: Row): States {
    var key := KeyOf(keyCols, row);
    st[key := UpdatedAll(specs, Entry(specs, st, key), row)]
  }

  ghost predicate Sized(specs: seq<AggSpec>, st: States) {
    forall key :: key in st ==> |st[key]| == |specs|
  }

  // `mine` with the groups in `done` merged from `theirs`.
  ghost function PartlyMerged(specs: seq<AggSpec>, mine: States, theirs: States, done: set<Key>): States {
    map key | key in mine.Keys + done ::
      if key in done then MergeSummaries(Entry(specs, mine, key), Entry(specs, theirs, key)) else mine[key]
  }

  lemma MergedSized(specs: seq<AggSpec>, mine: States, theirs: States)
    requires Sized(specs, mine)
    ensures Sized(specs, PartlyMerged(specs, mine, theirs, theirs.Keys))
  {
  }

  lemma PartlyMergedStep(specs: seq<AggSpec>, mine: States, theirs: States, done: set<Key>, key: Key)
    requires key in theirs && key !in done
    ensures var st := PartlyMerged(specs, mine, theirs, done);
      st[key := MergeSummaries(Entry(specs, st, key), theirs[key])] == PartlyMerged(specs, mine, theirs, done + {key})
  {
    var st := PartlyMerged(specs, mine, theirs, done);
    assert Entry(specs, st, key) == Entry(specs, mine, key);
    var next := PartlyMerged(specs, mine, theirs, done + {key});
    var got := st[key := MergeSummaries(Entry(specs, st, key), theirs[key])];
    assert got.Keys == next.Keys;
  }

  class VectorizedGroupByAgg {
    const keyCols: seq<nat>
    const specs: seq<AggSpec>
    var state: States
    // The rows seen so far, on this node or merged in.
    ghost var rows: seq<Row>

    ghost predicate Valid()
      reads this
    {
      state == StateOf(keyCols, specs, rows)
    }

    constructor (keyCols: seq<nat>, specs: seq<AggSpec>)
      ensures Valid() && rows == [] && this.keyCols == keyCols && this.specs == specs
    {
      this.keyCols, this.specs := keyCols, specs;
      state, rows := map[], [];
    }

    // Each aggregate of the row's group is updated in turn.
    method UpdateStates(states: seq<GroupState>, row: Row) returns (ss: seq<GroupState>)
      requires |states| == |specs|
      ensures ss == UpdatedAll(specs, states, row)
    {
      ss := states;
      for i := 0 to |specs|
        invariant |ss| == |specs|
        invariant forall j :: 0 <= j < i ==> ss[j] == states[j].Updated(Cell(row, specs[j].col))
        invariant forall j :: i <= j < |specs| ==> ss[j] == states[j]
      {
        ss := ss[i := ss[i].Updated(Cell(row, specs[i].col))];
      }
    }

    method AccumulateRow(row: Row)
      requires Sized(specs, state)
      modifies this`state
      ensures state == AfterRow(keyCols, specs, old(state), row)
    {
      var key := KeyOf(keyCols, row);
      var states := UpdateStates(Entry(specs, state, key), row);
      state := state[key := states];
    }

    method Accumulate(batch: seq<Row>)
      requires Valid()
      modifies this
      ensures Valid() && rows == old(rows) + batch
    {
      for n := 0 to |batch|
        invariant Valid() && rows == old(rows) + batch[..n]
      {
        StateSized(keyCols, specs, rows);
        RowAccumulated(keyCols, specs, rows, batch[n]);
        TakeOneMore(old(rows), batch, n);
        AccumulateRow(batch[n]);
        rows := rows + [batch[n]];
      }
      assert batch[..|batch|] == batch;
    }

    method MergeGroup(key: Key, theirs: seq<GroupState>)
      modifies this`state
      ensures state == old(state)[key := MergeSummaries(Entry(specs, old(state), key), theirs)]
    {
      var states := Entry(specs, state, key);
      var i := 0;
      var merged := states;
      while i < |theirs|
        invariant 0 <= i <= |theirs| && |merged| == |states|
        invariant forall j :: 0 <= j < |states| ==> merged[j] == if j < i then states[j].Merged(theirs[j]) else states[j]
      {
        if i < |merged| { merged := merged[i := merged[i].Merged(theirs[i])]; }
        i := i + 1;
      }
      assert merged == MergeSummaries(states, theirs);
      state := state[key := merged];
    }

    // Another node's partial state is folded in, group by group, in any order.
    method MergeAllGroups(theirs: States)
      modifies this`state
      ensures state == PartlyMerged(specs, old(state), theirs, theirs.Keys)
    {
      var order := InSomeOrder(theirs.Keys);
      ghost var mine, done: set<Key> := state, {};
      assert PartlyMerged(specs, mine, theirs, done) == mine;
      for n := 0 to |order|
        invariant ListsOnce(order[..n], done)
        invariant state == PartlyMerged(specs, mine, theirs, done)
      {
        ListedNext(order, theirs.Keys, n, done);
        PartlyMergedStep(specs, mine, theirs, done, order[n]);
        MergeGroup(order[n], theirs[order[n]]);
        done := done + {order[n]};
      }
      assert order[..|order|] == order;
      assert done == theirs.Keys;
    }

    // The other aggregator may have any lists; with the same ones the result is
    // the state of all rows together.
    method Merge(other: VectorizedGroupByAgg)
      requires Valid() && other.Valid() && other != this
      modifies this
      ensures state == PartlyMerged(specs, old(state), other.state, other.state.Keys) && Sized(specs, state)
      ensures rows == old(rows) + other.rows
      ensures other.keyCols == keyCols && other.specs == specs ==> Valid()
    {
      StateSized(keyCols, specs, rows);
      MergedSized(specs, state, other.state);
      StatesMerged(keyCols, specs, rows, other.rows);
      MergeAllGroups(other.state);
      rows := rows + other.rows;
    }

    // Each group becomes one output record, in any order.
    method Finish() returns (out: seq<Record>)
      ensures exists order :: ListsOnce(order, state.Keys) && out == FinishRows(keyCols, specs, order, state)
    {
      var keys := InSomeOrder(state.Keys);
      out := [];
      for n := 0 to |keys|
        invariant |out| == n
        invariant forall i :: 0 <= i < n ==> out[i] == FinishRow(keyCols, specs, keys[i], Entry(specs, state, keys[i]))
      {
        out := out + [FinishRow(keyCols, specs, keys[n], Entry(specs, state, keys[n]))];
      }
      assert out == FinishRows(keyCols, specs, keys, state);
    }
  }

  // The order in which a hash map is walked is any order.
  method InSomeOrder(keys: set<Key>) returns (order: seq<Key>)
    ensures ListsOnce(order, keys)
  {
    order := [];
    var todo := keys;
    ghost var done: set<Key> := {};
    while todo != {}
      invariant todo + done == keys && todo !! done && ListsOnce(order, done)
      decreases |todo|
    {
      var key :| key in todo;
      ListsOneMore(order, done, key);
      order := order + [key];
      todo, done := todo - {key}, done + {key};
    }
    assert done == keys;
  }

  lemma ListedNext(order: seq<Key>, keys: set<Key>, n: nat, done: set<Key>)
    requires ListsOnce(order, keys) && n < |order| && ListsOnce(order[..n], done)
    ensures order[n] in keys && order[n] !in done && ListsOnce(order[..n + 1], done + {order[n]})
  {
    assert order[n] in order;
    assert order[..n + 1] == order[..n] + [order[n]];
    ListsOneMore(order[..n], done, order[n]);
  }

  // `order` lists the elements of `keys`, each once.
  ghost predicate ListsOnce(order: seq<Key>, keys: set<Key>) {
    && (forall i, j :: 0 <= i < j < |order| ==> order[i] != order[j])
    && (forall key :: key in order <==> key in keys)
  }

  lemma ListsOneMore(order: seq<Key>, keys: set<Key>, key: Key)
    requires ListsOnce(order, keys) && key !in keys
    ensures ListsOnce(order + [key], keys + {key})
  {
    var out := order + [key];
    forall k ensures k in out <==> k in keys + {key} {
      assert k in out <==> k in order || k == key;
    }
    forall i, j | 0 <= i < j < |out| ensures out[i] != out[j] {
      if j == |order| { assert out[i] in order; }
    }
  }

  lemma StateSized(keyCols: seq<nat>, specs: seq<AggSpec>, rows: seq<Row>)
    ensures Sized(specs, StateOf(keyCols, specs, rows))
  {
  }

  // The entry of every group after one more row.
  lemma EntrySnoc(keyCols: seq<nat>, specs: seq<AggSpec>, rows: seq<Row>, row: Row, key: Key)
    ensures var was := Entry(specs, StateOf(keyCols, specs, rows), key);
      && |was| == |specs|
      && Entry(specs, StateOf(keyCols, specs, rows + [row]), key)
         == if key == KeyOf(keyCols, row) then UpdatedAll(specs, was, row) else was
  {
    var was := Entry(specs, StateOf(keyCols, specs, rows), key);
    EntryAppend(keyCols, specs, rows, [row], key);
    EntryOf(keyCols, specs, [row], key);
    if key == KeyOf(keyCols, row) {
      FilterAll([row], InGroup(keyCols, key));
      forall j | 0 <= j < |specs| ensures was[j].Updated(Cell(row, specs[j].col)) == was[j].Merged(Summary(specs[j].col, [row])) {
        SummaryOne(specs[j].col, row);
        UpdatedIsMerged(was[j], Cell(row, specs[j].col));
      }
    } else {
      FilterNone([row], InGroup(keyCols, key));
      BlankMerged(specs, was);
    }
  }

  lemma RowAccumulated(keyCols: seq<nat>, specs: seq<AggSpec>, rows: seq<Row>, row: Row)
    ensures AfterRow(keyCols, specs, StateOf(keyCols, specs, rows), row) == StateOf(keyCols, specs, rows + [row])
  {
    var was, now := StateOf(keyCols, specs, rows), StateOf(keyCols, specs, rows + [row]);
    var got := AfterRow(keyCols, specs, was, row);
    assert got.Keys == now.Keys by {
      KeysAppend(keyCols, rows, [row]);
      OneKey(keyCols, row);
    }
    forall key ensures Entry(specs, got, key) == Entry(specs, now, key) {
      RowEntry(keyCols, specs, rows, row, key);
    }
    StatesEqual(specs, got, now);
  }

  lemma RowEntry(keyCols: seq<nat>, specs: seq<AggSpec>, rows: seq<Row>, row: Row, key: Key)
    ensures Entry(specs, AfterRow(keyCols, specs, StateOf(keyCols, specs, rows), row), key)
         == Entry(specs, StateOf(keyCols, specs, rows + [row]), key)
  {
    EntrySnoc(keyCols, specs, rows, row, key);
  }

  lemma OneKey(keyCols: seq<nat>, row: Row)
    ensures Keys(keyCols, [row]) == {KeyOf(keyCols, row)}
  {
    assert [row][0] == row;
    assert KeyOf(keyCols, row) in Keys(keyCols, [row]);
  }

  lemma StatesMerged(keyCols: seq<nat>, specs: seq<AggSpec>, a: seq<Row>, b: seq<Row>)
    ensures var sa, sb := StateOf(keyCols, specs, a), StateOf(keyCols, specs, b);
      PartlyMerged(specs, sa, sb, sb.Keys) == StateOf(keyCols, specs, a + b)
  {
    var sa, sb := StateOf(keyCols, specs, a), StateOf(keyCols, specs, b);
    StateSized(keyCols, specs, a);
    StateSized(keyCols, specs, b);
    var merged := PartlyMerged(specs, sa, sb, sb.Keys);
    KeysAppend(keyCols, a, b);
    forall key ensures Entry(specs, merged, key) == Entry(specs, StateOf(keyCols, specs, a + b), key) {
      EntryAppend(keyCols, specs, a, b, key);
      EntryMerged(specs, sa, sb, key);
    }
    StatesEqual(specs, merged, StateOf(keyCols, specs, a + b));
  }

  lemma EntryMerged(specs: seq<AggSpec>, sa: States, sb: States, key: Key)
    requires Sized(specs, sa) && Sized(specs, sb)
    ensures Entry(specs, PartlyMerged(specs, sa, sb, sb.Keys), key) == MergeSummaries(Entry(specs, sa, key), Entry(specs, sb, key))
  {
    BlankMerged(specs, Entry(specs, sa, key));
  }

  // ----- output records

  datatype Record = Record(keys: seq<I64>, aggs: seq<int>)

  function FinishRow(keyCols: seq<nat>, specs: seq<AggSpec>, key: Key, states: seq<GroupState>): Record {
    Record(seq(|keyCols|, k requires 0 <= k < |keyCols| => DecodeColumn(key, k)),
           seq(|specs|, i requires 0 <= i < |specs| => if i < |states| then states[i].Result(specs[i].op) else 0))
  }

  function FinishRows(keyCols: seq<nat>, specs: seq<AggSpec>, order: seq<Key>, st: States): (out: seq<Record>)
    ensures |out| == |order|
    ensures forall i :: 0 <= i < |order| ==> out[i] == FinishRow(keyCols, specs, order[i], Entry(specs, st, order[i]))
  {
    seq(|order|, i requires 0 <= i < |order| => FinishRow(keyCols, specs, order[i], Entry(specs, st, order[i])))
  }
}
