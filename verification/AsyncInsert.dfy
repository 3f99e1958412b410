// The asynchronous INSERT buffer: one worker collects rows per cube and sends
// them on in batches, on a limit, on a timeout, or at shutdown.
module AsyncInsert {
  import opened Common

  datatype Config = Config(maxRows: nat, maxBytes: nat, flushInterval: nat)

  datatype InsertRow = InsertRow(cube: string, columns: map<string, seq<bv8>>, bytes: nat)

  datatype FlushReason = RowLimit | ByteLimit | Timeout | Shutdown

  datatype FlushBatch = FlushBatch(cube: string, rows: seq<InsertRow>, reason: FlushReason)

  // ----- one cube's buffer

  datatype CubeBuffer = CubeBuffer(rows: seq<InsertRow>, totalBytes: nat, lastInsert: int) {
    function Push(row: InsertRow, at: int): CubeBuffer {
      CubeBuffer(rows + [row], totalBytes + row.bytes, at)
    }

    function NeedsFlush(cfg: Config, now: int): Option<FlushReason> {
      if |rows| >= cfg.maxRows then Some(RowLimit)
      else if totalBytes >= cfg.maxBytes then Some(ByteLimit)
      else if now - lastInsert >= cfg.flushInterval && rows != [] then Some(Timeout)
      else None
    }

    function Drained(): CubeBuffer {
      CubeBuffer([], 0, lastInsert)
    }

    ghost predicate Holds(cfg: Config, cube: string) {
      && totalBytes == SumBytes(rows)
      && (forall i :: 0 <= i < |rows| ==> rows[i].cube == cube)
      && (cfg.maxRows > 0 ==> |rows| < cfg.maxRows)
      && (cfg.maxBytes > 0 ==> totalBytes < cfg.maxBytes)
    }
  }

  function SumBytes(rows: seq<InsertRow>): nat {
    if rows == [] then 0 else SumBytes(rows[..|rows| - 1]) + rows[|rows| - 1].bytes
  }

  type Buffers = map<string, CubeBuffer>

  function BufferRows(buffers: Buffers, cube: string): seq<InsertRow> {
    if cube in buffers then buffers[cube].rows else []
  }

  // ----- counting buffered rows

  ghost function TotalRows(buffers: Buffers): nat
    decreases |buffers|
  {
    if buffers == map[] then 0
    else
      var cube :| cube in buffers;
      |buffers[cube].rows| + TotalRows(buffers - {cube})
  }

  lemma {:induction false} TotalWithout(buffers: Buffers, cube: string)
    requires cube in buffers
    ensures TotalRows(buffers) == |buffers[cube].rows| + TotalRows(buffers - {cube})
    decreases |buffers|
  {
    var first :| first in buffers && TotalRows(buffers) == |buffers[first].rows| + TotalRows(buffers - {first});
    if first != cube {
      TotalWithout(buffers - {first}, cube);
      TotalWithout(buffers - {cube}, first);
      assert buffers - {first} - {cube} == buffers - {cube} - {first};
    }
  }

  lemma TotalUpdate(buffers: Buffers, cube: string, b: CubeBuffer)
    ensures TotalRows(buffers[cube := b]) == TotalRows(buffers) - |BufferRows(buffers, cube)| + |b.rows|
  {
    TotalWithout(buffers[cube := b], cube);
    assert buffers[cube := b] - {cube} == buffers - {cube};
    if cube in buffers { TotalWithout(buffers, cube); } else { assert buffers - {cube} == buffers; }
  }

  // ----- what was sent and received, per cube

  function SentRows(sent: seq<FlushBatch>, cube: string): seq<InsertRow> {
    if sent == [] then []
    else
      var last := sent[|sent| - 1];
      SentRows(sent[..|sent| - 1], cube) + if last.cube == cube then last.rows else []
  }

  function InCube(cube: string): InsertRow -> bool {
    (row: InsertRow) => row.cube == cube
  }

  function RowsOf(rows: seq<InsertRow>, cube: string): seq<InsertRow> {
    Filter(rows, InCube(cube))
  }

  // Nothing is lost, invented, repeated or reordered within a cube.
  ghost predicate Conserved(sent: seq<FlushBatch>, buffers: Buffers, received: seq<InsertRow>) {
    forall cube {:trigger SentRows(sent, cube)} :: SentRows(sent, cube) + BufferRows(buffers, cube) == RowsOf(received, cube)
  }

  lemma SentMore(sent: seq<FlushBatch>, b: FlushBatch, cube: string)
    ensures SentRows(sent + [b], cube) == SentRows(sent, cube) + if b.cube == cube then b.rows else []
  {
    assert (sent + [b])[..|sent|] == sent;
  }

  lemma ReceivedMore(rows: seq<InsertRow>, row: InsertRow, cube: string)
    ensures RowsOf(rows + [row], cube) == RowsOf(rows, cube) + if row.cube == cube then [row] else []
  {
    FilterAppend(rows, [row], InCube(cube));
  }

  lemma PushConserves(sent: seq<FlushBatch>, buffers: Buffers, received: seq<InsertRow>, row: InsertRow, b: CubeBuffer)
    requires Conserved(sent, buffers, received) && b.rows == BufferRows(buffers, row.cube) + [row]
    ensures Conserved(sent, buffers[row.cube := b], received + [row])
  {
    forall cube ensures SentRows(sent, cube) + BufferRows(buffers[row.cube := b], cube) == RowsOf(received + [row], cube) {
      ReceivedMore(received, row, cube);
      assert SentRows(sent, cube) + BufferRows(buffers, cube) == RowsOf(received, cube);
    }
  }

  // Moving a buffer's rows into a batch changes nothing in the sum.
  lemma DrainConserves(sent: seq<FlushBatch>, buffers: Buffers, received: seq<InsertRow>, b: FlushBatch)
    requires Conserved(sent, buffers, received) && b.cube in buffers && b.rows == buffers[b.cube].rows
    ensures Conserved(sent + [b], buffers[b.cube := buffers[b.cube].Drained()], received)
  {
    var after := buffers[b.cube := buffers[b.cube].Drained()];
    forall cube ensures SentRows(sent + [b], cube) + BufferRows(after, cube) == RowsOf(received, cube) {
      SentMore(sent, b, cube);
      assert SentRows(sent, cube) + BufferRows(buffers, cube) == RowsOf(received, cube);
    }
  }

  // A batch names the row limit if it has reached it, else the byte limit if
  // it has reached that, and is under both if it names the timeout.
  predicate ReasonRight(cfg: Config, b: FlushBatch) {
    match b.reason
    case RowLimit => |b.rows| >= cfg.maxRows
    case ByteLimit => |b.rows| < cfg.maxRows && SumBytes(b.rows) >= cfg.maxBytes
    case Timeout => |b.rows| < cfg.maxRows && SumBytes(b.rows) < cfg.maxBytes
    case Shutdown => true
  }

  ghost predicate BatchRight(cfg: Config, b: FlushBatch) {
    && b.rows != []
    && (cfg.maxRows > 0 ==> |b.rows| <= cfg.maxRows)
    && ReasonRight(cfg, b)
    && forall j :: 0 <= j < |b.rows| ==> b.rows[j].cube == b.cube
  }

  ghost predicate BatchesRight(cfg: Config, sent: seq<FlushBatch>) {
    forall i :: 0 <= i < |sent| ==> BatchRight(cfg, sent[i])
  }

  ghost predicate BuffersHold(cfg: Config, buffers: Buffers) {
    forall cube :: cube in buffers ==> buffers[cube].Holds(cfg, cube)
  }

  lemma PushSize(rows: seq<InsertRow>, row: InsertRow)
    ensures SumBytes(rows + [row]) == SumBytes(rows) + row.bytes
  {
    assert (rows + [row])[..|rows|] == rows;
  }

  // Rows are conserved, the counter is the number of buffered rows, every buffer
  // is under both limits, and every batch is within the row limit.
  ghost predicate Good(cfg: Config, sent: seq<FlushBatch>, buffers: Buffers, buffered: int, received: seq<InsertRow>) {
    && Conserved(sent, buffers, received)
    && BuffersHold(cfg, buffers)
    && BatchesRight(cfg, sent)
    && buffered == TotalRows(buffers)
  }

  function BufferOf(buffers: Buffers, cube: string, at: int): CubeBuffer {
    if cube in buffers then buffers[cube] else CubeBuffer([], 0, at)
  }

  lemma PushKeepsGood(cfg: Config, sent: seq<FlushBatch>, buffers: Buffers, n: int, received: seq<InsertRow>, row: InsertRow, at: int, check: int)
    requires Good(cfg, sent, buffers, n, received)
    requires BufferOf(buffers, row.cube, at).Push(row, at).NeedsFlush(cfg, check).None?
    ensures Good(cfg, sent, buffers[row.cube := BufferOf(buffers, row.cube, at).Push(row, at)], n + 1, received + [row])
  {
    var buf := BufferOf(buffers, row.cube, at);
    var pushed := buf.Push(row, at);
    PushConserves(sent, buffers, received, row, pushed);
    TotalUpdate(buffers, row.cube, pushed);
    PushSize(buf.rows, row);
    assert pushed.Holds(cfg, row.cube);
  }

  // Draining a buffer into a batch, whatever the reason.
  lemma FlushKeepsGood(cfg: Config, sent: seq<FlushBatch>, buffers: Buffers, n: int, received: seq<InsertRow>, batch: FlushBatch)
    requires Conserved(sent, buffers, received) && BatchesRight(cfg, sent + [batch]) && n == TotalRows(buffers)
    requires batch.cube in buffers && batch.rows == buffers[batch.cube].rows
    requires forall cube :: cube in buffers && cube != batch.cube ==> buffers[cube].Holds(cfg, cube)
    ensures Good(cfg, sent + [batch], buffers[batch.cube := buffers[batch.cube].Drained()], n - |batch.rows|, received)
  {
    DrainConserves(sent, buffers, received, batch);
    TotalUpdate(buffers, batch.cube, buffers[batch.cube].Drained());
  }

  lemma PushedBatchFits(cfg: Config, sent: seq<FlushBatch>, buffers: Buffers, row: InsertRow, at: int, check: int, reason: FlushReason)
    requires BatchesRight(cfg, sent) && BuffersHold(cfg, buffers)
    requires BufferOf(buffers, row.cube, at).Push(row, at).NeedsFlush(cfg, check) == Some(reason)
    ensures BatchesRight(cfg, sent + [FlushBatch(row.cube, BufferOf(buffers, row.cube, at).Push(row, at).rows, reason)])
  {
    var buf := BufferOf(buffers, row.cube, at);
    assert row.cube in buffers ==> buf.Holds(cfg, row.cube);
    PushedExact(cfg, buf, row, at, check);
    assert BatchRight(cfg, FlushBatch(row.cube, buf.rows + [row], reason));
  }

  lemma PushFlushKeepsGood(cfg: Config, sent: seq<FlushBatch>, buffers: Buffers, n: int, received: seq<InsertRow>, row: InsertRow, at: int, check: int, reason: FlushReason)
    requires Good(cfg, sent, buffers, n, received)
    requires BufferOf(buffers, row.cube, at).Push(row, at).NeedsFlush(cfg, check) == Some(reason)
    ensures var pushed := BufferOf(buffers, row.cube, at).Push(row, at);
      Good(cfg, sent + [FlushBatch(row.cube, pushed.rows, reason)], buffers[row.cube := pushed.Drained()],
           n + 1 - |pushed.rows|, received + [row])
  {
    var pushed := BufferOf(buffers, row.cube, at).Push(row, at);
    var mid := buffers[row.cube := pushed];
    PushedBatchFits(cfg, sent, buffers, row, at, check, reason);
    PushConserves(sent, buffers, received, row, pushed);
    TotalUpdate(buffers, row.cube, pushed);
    FlushKeepsGood(cfg, sent, mid, n + 1, received + [row], FlushBatch(row.cube, pushed.rows, reason));
    assert mid[row.cube := pushed.Drained()] == buffers[row.cube := pushed.Drained()];
  }

  // The buffers and the counter after a row has been stored, and the batch that
  // is then due.
  datatype StoredRow = StoredRow(buffers: Buffers, buffered: int, batch: Option<FlushBatch>)

  function AfterRow(cfg: Config, buffers: Buffers, n: int, row: InsertRow, at: int, check: int): StoredRow {
    var pushed := BufferOf(buffers, row.cube, at).Push(row, at);
    var reason := pushed.NeedsFlush(cfg, check);
    if reason.None? then StoredRow(buffers[row.cube := pushed], n + 1, None)
    else
      StoredRow(buffers[row.cube := pushed.Drained()], n + 1 - |pushed.rows|, Some(FlushBatch(row.cube, pushed.rows, reason.value)))
  }

  function SentWith(sent: seq<FlushBatch>, batch: Option<FlushBatch>): seq<FlushBatch> {
    if batch.Some? then sent + [batch.value] else sent
  }

  lemma ReceiveKeepsGood(cfg: Config, sent: seq<FlushBatch>, buffers: Buffers, n: int, received: seq<InsertRow>, row: InsertRow, at: int, check: int)
    requires Good(cfg, sent, buffers, n, received)
    ensures var r := AfterRow(cfg, buffers, n, row, at, check);
      Good(cfg, SentWith(sent, r.batch), r.buffers, r.buffered, received + [row])
  {
    var reason := BufferOf(buffers, row.cube, at).Push(row, at).NeedsFlush(cfg, check);
    if reason.Some? {
      PushFlushKeepsGood(cfg, sent, buffers, n, received, row, at, check, reason.value);
    } else {
      PushKeepsGood(cfg, sent, buffers, n, received, row, at, check);
    }
  }

  // ----- when a buffer is due

  predicate Overdue(cfg: Config, b: CubeBuffer, now: int) {
    b.rows != [] && now - b.lastInsert >= cfg.flushInterval
  }

  predicate AtLimit(cfg: Config, rows: seq<InsertRow>) {
    |rows| >= cfg.maxRows || SumBytes(rows) >= cfg.maxBytes
  }

  // A buffer is flushed exactly when its rows reach a limit or it is overdue,
  // and for the first of these reasons that applies.
  lemma NeedsFlushExact(cfg: Config, b: CubeBuffer, now: int, cube: string)
    requires b.totalBytes == SumBytes(b.rows)
    ensures b.NeedsFlush(cfg, now).Some? <==> AtLimit(cfg, b.rows) || Overdue(cfg, b, now)
    ensures b.NeedsFlush(cfg, now) == Some(Timeout) <==> !AtLimit(cfg, b.rows) && Overdue(cfg, b, now)
    ensures b.NeedsFlush(cfg, now).Some? ==>
      var batch := FlushBatch(cube, b.rows, b.NeedsFlush(cfg, now).value); ReasonRight(cfg, batch) && batch.reason != Shutdown
  {
  }

  // Storing a row makes a batch, of all rows of its cube, exactly when these
  // reach a limit or the interval has passed since the row was stored. Other
  // cubes are not touched.
  ghost predicate StoredExactly(cfg: Config, before: Buffers, row: InsertRow, elapsed: int, batch: Option<FlushBatch>, after: Buffers) {
    var rows := BufferRows(before, row.cube) + [row];
    && (batch.Some? <==> |rows| >= cfg.maxRows || SumBytes(rows) >= cfg.maxBytes || elapsed >= cfg.flushInterval)
    && (batch.Some? ==> batch.value.cube == row.cube && batch.value.rows == rows && ReasonRight(cfg, batch.value))
    && row.cube in after && after == before[row.cube := after[row.cube]]
    && after[row.cube].rows == if batch.Some? then [] else rows
  }

  lemma StoreExact(cfg: Config, buffers: Buffers, n: int, row: InsertRow, at: int, check: int)
    requires var buf := BufferOf(buffers, row.cube, at); buf.totalBytes == SumBytes(buf.rows)
    ensures var r := AfterRow(cfg, buffers, n, row, at, check);
      StoredExactly(cfg, buffers, row, check - at, r.batch, r.buffers)
  {
    var buf := BufferOf(buffers, row.cube, at);
    PushedExact(cfg, buf, row, at, check);
  }

  lemma PushedExact(cfg: Config, b: CubeBuffer, row: InsertRow, at: int, check: int)
    requires b.totalBytes == SumBytes(b.rows)
    ensures var rows, reason := b.rows + [row], b.Push(row, at).NeedsFlush(cfg, check);
      && (reason.Some? <==> |rows| >= cfg.maxRows || SumBytes(rows) >= cfg.maxBytes || check - at >= cfg.flushInterval)
      && (reason.Some? ==> ReasonRight(cfg, FlushBatch(row.cube, rows, reason.value)))
  {
    PushSize(b.rows, row);
    NeedsFlushExact(cfg, b.Push(row, at), check, row.cube);
  }

  // ----- how long a batch has waited

  // When the rows of a cube were stored, in order.
  function StampsOf(received: seq<InsertRow>, stamps: seq<int>, cube: string): seq<int>
    requires |stamps| == |received|
  {
    if received == [] then []
    else
      var n := |received| - 1;
      StampsOf(received[..n], stamps[..n], cube) + if received[n].cube == cube then [stamps[n]] else []
  }

  lemma StampsMore(received: seq<InsertRow>, stamps: seq<int>, row: InsertRow, at: int, cube: string)
    requires |stamps| == |received|
    ensures StampsOf(received + [row], stamps + [at], cube) == StampsOf(received, stamps, cube) + if row.cube == cube then [at] else []
  {
    assert (received + [row])[..|received|] == received && (stamps + [at])[..|stamps|] == stamps;
  }

  lemma {:induction false} StampsCount(received: seq<InsertRow>, stamps: seq<int>, cube: string)
    requires |stamps| == |received|
    ensures |StampsOf(received, stamps, cube)| == |RowsOf(received, cube)|
  {
    if received != [] {
      var n := |received| - 1;
      StampsCount(received[..n], stamps[..n], cube);
      ReceivedMore(received[..n], received[n], cube);
      assert received[..n] + [received[n]] == received;
    }
  }

  // The time read while a signal is handled.
  function Moment(cause: Signal): int {
    match cause
    case Row(_, _, check) => check
    case Tick(now) => now
    case Stop => 0
  }

  // The last batch was made by `cause`: a shutdown, or a signal at a moment
  // that is, for a timeout, at least the interval after its last row was
  // stored. `stamps` are those of the batch's cube.
  ghost predicate OnTime(cfg: Config, made: seq<FlushBatch>, cause: Signal, stamps: seq<int>)
    requires made != []
  {
    var batch := made[|made| - 1];
    var n := |SentRows(made, batch.cube)|;
    0 < n <= |stamps| && Justified(cfg, batch, cause, stamps[n - 1])
  }

  predicate Justified(cfg: Config, batch: FlushBatch, cause: Signal, last: int) {
    && (batch.reason == Shutdown <==> cause.Stop?)
    && (batch.reason == Timeout ==> Moment(cause) - last >= cfg.flushInterval)
  }

  ghost predicate AllOnTime(cfg: Config, made: seq<FlushBatch>, causes: seq<Signal>, received: seq<InsertRow>, stamps: seq<int>)
    requires |stamps| == |received|
  {
    |causes| == |made| &&
    if made == [] then true
    else
      var n := |made| - 1;
      OnTime(cfg, made, causes[n], StampsOf(received, stamps, made[n].cube)) && AllOnTime(cfg, made[..n], causes[..n], received, stamps)
  }

  // A buffer knows when its last row was stored.
  ghost predicate DatedAt(buffers: Buffers, received: seq<InsertRow>, stamps: seq<int>, cube: string)
    requires |stamps| == |received|
  {
    var ts := StampsOf(received, stamps, cube);
    cube in buffers && buffers[cube].rows != [] ==> ts != [] && ts[|ts| - 1] == buffers[cube].lastInsert
  }

  ghost predicate Timely(cfg: Config, made: seq<FlushBatch>, causes: seq<Signal>, buffers: Buffers, received: seq<InsertRow>, stamps: seq<int>) {
    && |stamps| == |received|
    && (forall cube {:trigger DatedAt(buffers, received, stamps, cube)} :: DatedAt(buffers, received, stamps, cube))
    && AllOnTime(cfg, made, causes, received, stamps)
  }

  lemma {:induction false} OnTimeLater(cfg: Config, made: seq<FlushBatch>, causes: seq<Signal>, received: seq<InsertRow>, stamps: seq<int>, row: InsertRow, at: int)
    requires |stamps| == |received| && AllOnTime(cfg, made, causes, received, stamps)
    ensures AllOnTime(cfg, made, causes, received + [row], stamps + [at])
  {
    if made != [] {
      var n := |made| - 1;
      OnTimeLater(cfg, made[..n], causes[..n], received, stamps, row, at);
      StampsMore(received, stamps, row, at, made[n].cube);
    }
  }

  lemma PushTimely(cfg: Config, made: seq<FlushBatch>, causes: seq<Signal>, buffers: Buffers, received: seq<InsertRow>, stamps: seq<int>, row: InsertRow, at: int)
    requires Timely(cfg, made, causes, buffers, received, stamps)
    ensures Timely(cfg, made, causes, buffers[row.cube := BufferOf(buffers, row.cube, at).Push(row, at)], received + [row], stamps + [at])
  {
    OnTimeLater(cfg, made, causes, received, stamps, row, at);
    var after := buffers[row.cube := BufferOf(buffers, row.cube, at).Push(row, at)];
    forall cube ensures DatedAt(after, received + [row], stamps + [at], cube) {
      StampsMore(received, stamps, row, at, cube);
      assert DatedAt(buffers, received, stamps, cube);
    }
  }

  lemma FlushTimely(cfg: Config, made: seq<FlushBatch>, causes: seq<Signal>, buffers: Buffers, received: seq<InsertRow>, stamps: seq<int>, batch: FlushBatch, cause: Signal)
    requires Timely(cfg, made, causes, buffers, received, stamps) && Conserved(made, buffers, received)
    requires batch.cube in buffers && batch.rows == buffers[batch.cube].rows && batch.rows != []
    requires Justified(cfg, batch, cause, buffers[batch.cube].lastInsert)
    ensures Timely(cfg, made + [batch], causes + [cause], buffers[batch.cube := buffers[batch.cube].Drained()], received, stamps)
  {
    var more, after := made + [batch], buffers[batch.cube := buffers[batch.cube].Drained()];
    LastOnTime(cfg, made, buffers, received, stamps, batch, cause);
    assert more[..|made|] == made && (causes + [cause])[..|made|] == causes;
    forall cube ensures DatedAt(after, received, stamps, cube) {
      assert DatedAt(buffers, received, stamps, cube);
    }
  }

  lemma LastOnTime(cfg: Config, made: seq<FlushBatch>, buffers: Buffers, received: seq<InsertRow>, stamps: seq<int>, batch: FlushBatch, cause: Signal)
    requires |stamps| == |received| && DatedAt(buffers, received, stamps, batch.cube) && Conserved(made, buffers, received)
    requires batch.cube in buffers && batch.rows == buffers[batch.cube].rows && batch.rows != []
    requires Justified(cfg, batch, cause, buffers[batch.cube].lastInsert)
    ensures OnTime(cfg, made + [batch], cause, StampsOf(received, stamps, batch.cube))
  {
    SentMore(made, batch, batch.cube);
    StampsCount(received, stamps, batch.cube);
    assert SentRows(made, batch.cube) + BufferRows(buffers, batch.cube) == RowsOf(received, batch.cube);
  }

  function NonEmpty(): FlushBatch -> bool {
    (b: FlushBatch) => b.rows != []
  }

  lemma BatchFits(cfg: Config, sent: seq<FlushBatch>, buffers: Buffers, batch: FlushBatch)
    requires BatchesRight(cfg, sent) && BuffersHold(cfg, buffers)
    requires batch.cube in buffers && batch.rows == buffers[batch.cube].rows && batch.rows != [] && ReasonRight(cfg, batch)
    ensures BatchesRight(cfg, sent + [batch])
  {
    assert buffers[batch.cube].Holds(cfg, batch.cube);
  }

  // Draining one buffer during a round: an empty batch is not sent on.
  lemma RoundKeepsGood(cfg: Config, sent: seq<FlushBatch>, pending: seq<FlushBatch>, buffers: Buffers, n: int, received: seq<InsertRow>, batch: FlushBatch)
    requires Good(cfg, sent + Filter(pending, NonEmpty()), buffers, n, received)
    requires batch.cube in buffers && batch.rows == buffers[batch.cube].rows && ReasonRight(cfg, batch)
    ensures Good(cfg, sent + Filter(pending + [batch], NonEmpty()), buffers[batch.cube := buffers[batch.cube].Drained()], n - |batch.rows|, received)
  {
    var kept := Filter(pending, NonEmpty());
    var more := Filter(pending + [batch], NonEmpty());
    FilterAppend(pending, [batch], NonEmpty());
    if batch.rows == [] {
      assert more == kept + [] == kept;
      assert buffers[batch.cube].Holds(cfg, batch.cube);
      assert buffers[batch.cube := buffers[batch.cube].Drained()] == buffers;
    } else {
      assert more == kept + [batch];
      assert sent + more == (sent + kept) + [batch];
      BatchFits(cfg, sent + kept, buffers, batch);
      FlushKeepsGood(cfg, sent + kept, buffers, n, received, batch);
    }
  }

  // ----- what handling one signal does

  // Only the buffers that are due change, and those are emptied.
  ghost predicate DrainedExactly(cfg: Config, before: Buffers, after: Buffers, now: int, todo: set<string>) {
    && after.Keys == before.Keys
    && forall cube :: cube in before ==>
         after[cube] == if cube !in todo && (AtLimit(cfg, before[cube].rows) || Overdue(cfg, before[cube], now))
                        then before[cube].Drained() else before[cube]
  }

  ghost predicate TakenFrom(cfg: Config, before: Buffers, batch: FlushBatch, cause: Signal) {
    && batch.cube in before && batch.rows == before[batch.cube].rows
    && Justified(cfg, batch, cause, before[batch.cube].lastInsert)
  }

  predicate DistinctCubes(batches: seq<FlushBatch>) {
    forall i, j :: 0 <= i < j < |batches| ==> batches[i].cube != batches[j].cube
  }

  // Each batch is a whole buffer, no two of them the same one.
  ghost predicate Emptied(cfg: Config, before: Buffers, batches: seq<FlushBatch>, cause: Signal) {
    && DistinctCubes(batches)
    && forall i :: 0 <= i < |batches| ==> batches[i].rows != [] && TakenFrom(cfg, before, batches[i], cause)
  }

  function AsList(batch: Option<FlushBatch>): seq<FlushBatch> {
    if batch.Some? then [batch.value] else []
  }

  lemma RowHandled(cfg: Config, made: seq<FlushBatch>, before: Buffers, n: int, row: InsertRow, at: int, check: int)
    ensures var r := AfterRow(cfg, before, n, row, at, check);
      && Handled(cfg, before, Row(row, at, check), AsList(r.batch), r.buffers)
      && SentWith(made, r.batch) == made + AsList(r.batch)
  {
  }

  // What the signal makes of the buffers, and the batches it makes.
  ghost predicate Handled(cfg: Config, before: Buffers, signal: Signal, batches: seq<FlushBatch>, after: Buffers) {
    match signal
    case Row(row, at, check) =>
      var r := AfterRow(cfg, before, 0, row, at, check);
      after == r.buffers && batches == AsList(r.batch)
    case Tick(now) => DrainedExactly(cfg, before, after, now, {}) && Emptied(cfg, before, batches, signal)
    case Stop => after == map[] && Emptied(cfg, before, batches, signal)
  }

  // The batches of a round that has still to visit the cubes of `todo`.
  ghost predicate Pending(cfg: Config, before: Buffers, pending: seq<FlushBatch>, now: int, todo: set<string>) {
    && DistinctCubes(pending)
    && forall i :: 0 <= i < |pending| ==> pending[i].cube !in todo && TakenFrom(cfg, before, pending[i], Tick(now))
  }

  lemma PendingMore(cfg: Config, before: Buffers, pending: seq<FlushBatch>, now: int, todo: set<string>, cube: string, reason: FlushReason)
    requires Pending(cfg, before, pending, now, todo) && cube in todo && cube in before
    requires before[cube].NeedsFlush(cfg, now) == Some(reason)
    ensures Pending(cfg, before, pending + [FlushBatch(cube, before[cube].rows, reason)], now, todo - {cube})
  {
  }

  function DueBatch(cfg: Config, buffers: Buffers, cube: string, now: int): Option<FlushBatch>
    requires cube in buffers
  {
    var reason := buffers[cube].NeedsFlush(cfg, now);
    if reason.Some? then Some(FlushBatch(cube, buffers[cube].rows, reason.value)) else None
  }

  function AfterVisit(cfg: Config, buffers: Buffers, cube: string, now: int): Buffers
    requires cube in buffers
  {
    if buffers[cube].NeedsFlush(cfg, now).Some? then buffers[cube := buffers[cube].Drained()] else buffers
  }

  // A round that has still to visit the cubes of `todo`.
  ghost predicate Rounding(cfg: Config, made: seq<FlushBatch>, pending: seq<FlushBatch>, before: Buffers, buffers: Buffers, n: int, received: seq<InsertRow>, now: int, todo: set<string>) {
    && todo <= buffers.Keys
    && Good(cfg, made + Filter(pending, NonEmpty()), buffers, n, received)
    && DrainedExactly(cfg, before, buffers, now, todo)
    && Pending(cfg, before, pending, now, todo)
  }

  lemma RoundStarts(cfg: Config, made: seq<FlushBatch>, buffers: Buffers, n: int, received: seq<InsertRow>, now: int)
    requires Good(cfg, made, buffers, n, received)
    ensures Rounding(cfg, made, [], buffers, buffers, n, received, now, buffers.Keys)
  {
    assert made + [] == made;
  }

  lemma VisitDrains(cfg: Config, before: Buffers, buffers: Buffers, now: int, todo: set<string>, cube: string)
    requires cube in todo && todo <= buffers.Keys && DrainedExactly(cfg, before, buffers, now, todo) && BuffersHold(cfg, buffers)
    ensures DrainedExactly(cfg, before, AfterVisit(cfg, buffers, cube, now), now, todo - {cube})
    ensures buffers[cube] == before[cube]
  {
    NeedsFlushExact(cfg, buffers[cube], now, cube);
  }

  lemma RoundProceeds(cfg: Config, made: seq<FlushBatch>, pending: seq<FlushBatch>, before: Buffers, buffers: Buffers, n: int, received: seq<InsertRow>, now: int, todo: set<string>, cube: string)
    requires Rounding(cfg, made, pending, before, buffers, n, received, now, todo) && cube in todo
    ensures var batch := DueBatch(cfg, buffers, cube, now);
      Rounding(cfg, made, if batch.Some? then pending + [batch.value] else pending, before, AfterVisit(cfg, buffers, cube, now),
               n - (if batch.Some? then |batch.value.rows| else 0), received, now, todo - {cube})
  {
    VisitDrains(cfg, before, buffers, now, todo, cube);
    var batch := DueBatch(cfg, buffers, cube, now);
    if batch.Some? {
      PendingMore(cfg, before, pending, now, todo, cube, batch.value.reason);
      NeedsFlushExact(cfg, buffers[cube], now, cube);
      RoundKeepsGood(cfg, made, pending, buffers, n, received, batch.value);
    }
  }

  lemma RoundEnds(cfg: Config, made: seq<FlushBatch>, pending: seq<FlushBatch>, before: Buffers, buffers: Buffers, n: int, received: seq<InsertRow>, now: int)
    requires Rounding(cfg, made, pending, before, buffers, n, received, now, {})
    ensures Good(cfg, made + Filter(pending, NonEmpty()), buffers, n, received)
    ensures Handled(cfg, before, Tick(now), Filter(pending, NonEmpty()), buffers)
  {
    FilterEmptied(cfg, before, pending, Tick(now));
  }

  // The batches of a shutdown that has still to visit the buffers `left`.
  ghost predicate Finishing(cfg: Config, before: Buffers, batches: seq<FlushBatch>, left: Buffers) {
    && Emptied(cfg, before, batches, Stop)
    && left.Keys <= before.Keys && (forall cube :: cube in left ==> left[cube] == before[cube])
    && forall i :: 0 <= i < |batches| ==> batches[i].cube !in left
  }

  lemma FinishingMore(cfg: Config, before: Buffers, batches: seq<FlushBatch>, left: Buffers, batch: FlushBatch)
    requires Finishing(cfg, before, batches, left)
    requires batch.cube in left && batch.rows == left[batch.cube].rows && batch.reason == Shutdown
    ensures Finishing(cfg, before, if batch.rows == [] then batches else batches + [batch], left - {batch.cube})
  {
  }

  lemma {:induction false} FilterEmptied(cfg: Config, before: Buffers, batches: seq<FlushBatch>, cause: Signal)
    requires DistinctCubes(batches) && forall i :: 0 <= i < |batches| ==> TakenFrom(cfg, before, batches[i], cause)
    ensures Emptied(cfg, before, Filter(batches, NonEmpty()), cause)
  {
    if batches != [] {
      var rest := batches[1..];
      FilterEmptied(cfg, before, rest, cause);
      forall b | b in Filter(rest, NonEmpty()) ensures b.cube != batches[0].cube {
        FilterIn(rest, NonEmpty(), b);
        var i :| 0 <= i < |rest| && rest[i] == b;
        assert batches[i + 1] == b;
      }
    }
  }

  lemma {:induction false} NoneSent(batches: seq<FlushBatch>, cube: string)
    requires forall i :: 0 <= i < |batches| ==> batches[i].cube != cube
    ensures SentRows(batches, cube) == []
  {
    if batches != [] { NoneSent(batches[..|batches| - 1], cube); }
  }

  function Repeated(cause: Signal, n: nat): (s: seq<Signal>)
    ensures |s| == n && forall i :: 0 <= i < n ==> s[i] == cause
  {
    seq(n, _ => cause)
  }

  // The first `k` of the batches, behind those made before.
  lemma {:induction false} EmptiedOnTime(cfg: Config, made: seq<FlushBatch>, causes: seq<Signal>, before: Buffers, received: seq<InsertRow>, stamps: seq<int>, batches: seq<FlushBatch>, cause: Signal, k: nat)
    requires Timely(cfg, made, causes, before, received, stamps) && Conserved(made, before, received)
    requires Emptied(cfg, before, batches, cause) && k <= |batches|
    ensures AllOnTime(cfg, made + batches[..k], causes + Repeated(cause, k), received, stamps)
  {
    if k == 0 {
      assert made + batches[..0] == made && causes + Repeated(cause, 0) == causes;
    } else {
      var n := k - 1;
      EmptiedOnTime(cfg, made, causes, before, received, stamps, batches, cause, n);
      assert DatedAt(before, received, stamps, batches[n].cube);
      EmptiedLast(cfg, made, before, received, stamps, batches, cause, n);
      TakeOneMore(made, batches, n);
      RepeatOneMore(causes, cause, n);
      AllOnTimeMore(cfg, made + batches[..n], causes + Repeated(cause, n), received, stamps, batches[n], cause,
                    made + batches[..k], causes + Repeated(cause, k));
    }
  }

  lemma RepeatOneMore(causes: seq<Signal>, cause: Signal, n: nat)
    ensures causes + Repeated(cause, n + 1) == (causes + Repeated(cause, n)) + [cause]
  {
  }

  lemma AllOnTimeMore(cfg: Config, made: seq<FlushBatch>, causes: seq<Signal>, received: seq<InsertRow>, stamps: seq<int>, batch: FlushBatch, cause: Signal, more: seq<FlushBatch>, why: seq<Signal>)
    requires |stamps| == |received| && AllOnTime(cfg, made, causes, received, stamps)
    requires OnTime(cfg, made + [batch], cause, StampsOf(received, stamps, batch.cube))
    requires more == made + [batch] && why == causes + [cause]
    ensures AllOnTime(cfg, more, why, received, stamps)
  {
    assert more[..|made|] == made && why[..|made|] == causes;
  }

  lemma EmptiedLast(cfg: Config, made: seq<FlushBatch>, before: Buffers, received: seq<InsertRow>, stamps: seq<int>, batches: seq<FlushBatch>, cause: Signal, n: nat)
    requires |stamps| == |received| && n < |batches| && DatedAt(before, received, stamps, batches[n].cube)
    requires Emptied(cfg, before, batches, cause) && Conserved(made, before, received)
    ensures OnTime(cfg, made + batches[..n] + [batches[n]], cause, StampsOf(received, stamps, batches[n].cube))
  {
    var batch, all := batches[n], made + batches[..n];
    SentAppend(made, batches[..n], batch.cube);
    NoneSent(batches[..n], batch.cube);
    SentMore(all, batch, batch.cube);
    StampsCount(received, stamps, batch.cube);
    assert SentRows(made, batch.cube) + BufferRows(before, batch.cube) == RowsOf(received, batch.cube);
  }

  lemma ReceiveTimely(cfg: Config, made: seq<FlushBatch>, causes: seq<Signal>, buffers: Buffers, received: seq<InsertRow>, stamps: seq<int>, row: InsertRow, at: int, check: int)
    requires Timely(cfg, made, causes, buffers, received, stamps) && Conserved(made, buffers, received)
    ensures var r, cause := AfterRow(cfg, buffers, 0, row, at, check), Row(row, at, check);
      Timely(cfg, SentWith(made, r.batch), if r.batch.Some? then causes + [cause] else causes, r.buffers, received + [row], stamps + [at])
  {
    var pushed := BufferOf(buffers, row.cube, at).Push(row, at);
    var mid := buffers[row.cube := pushed];
    var r := AfterRow(cfg, buffers, 0, row, at, check);
    PushTimely(cfg, made, causes, buffers, received, stamps, row, at);
    if r.batch.Some? {
      PushConserves(made, buffers, received, row, pushed);
      FlushTimely(cfg, made, causes, mid, received + [row], stamps + [at], r.batch.value, Row(row, at, check));
      assert mid[row.cube := pushed.Drained()] == r.buffers;
    }
  }

  function RowsWith(rows: seq<InsertRow>, signal: Signal): seq<InsertRow> {
    if signal.Row? then rows + [signal.row] else rows
  }

  function StampsWith(stamps: seq<int>, signal: Signal): seq<int> {
    if signal.Row? then stamps + [signal.at] else stamps
  }

  lemma DatedAfter(cfg: Config, before: Buffers, received: seq<InsertRow>, stamps: seq<int>, signal: Signal, batches: seq<FlushBatch>, after: Buffers, cube: string)
    requires !signal.Row? && Handled(cfg, before, signal, batches, after)
    requires |stamps| == |received| && DatedAt(before, received, stamps, cube)
    ensures DatedAt(after, received, stamps, cube)
  {
  }

  lemma HandledTimely(cfg: Config, made: seq<FlushBatch>, causes: seq<Signal>, before: Buffers, received: seq<InsertRow>, stamps: seq<int>, signal: Signal, batches: seq<FlushBatch>, after: Buffers)
    requires Timely(cfg, made, causes, before, received, stamps) && Conserved(made, before, received)
    requires Handled(cfg, before, signal, batches, after)
    ensures Timely(cfg, made + batches, causes + Repeated(signal, |batches|), after, RowsWith(received, signal), StampsWith(stamps, signal))
  {
    if signal.Row? {
      ReceiveTimely(cfg, made, causes, before, received, stamps, signal.row, signal.at, signal.check);
      assert batches == [] ==> made + batches == made && causes + Repeated(signal, 0) == causes;
      assert Repeated(signal, 1) == [signal];
    } else {
      EmptiedOnTime(cfg, made, causes, before, received, stamps, batches, signal, |batches|);
      assert batches[..|batches|] == batches;
      forall cube ensures DatedAt(after, received, stamps, cube) {
        DatedAfter(cfg, before, received, stamps, signal, batches, after, cube);
      }
    }
  }

  lemma {:induction false} BatchOnTime(cfg: Config, made: seq<FlushBatch>, causes: seq<Signal>, received: seq<InsertRow>, stamps: seq<int>, i: nat)
    requires |stamps| == |received| && AllOnTime(cfg, made, causes, received, stamps) && i < |made|
    ensures |causes| == |made| && OnTime(cfg, made[..i + 1], causes[i], StampsOf(received, stamps, made[i].cube))
  {
    var n := |made| - 1;
    if i == n {
      assert made[..i + 1] == made;
    } else {
      BatchOnTime(cfg, made[..n], causes[..n], received, stamps, i);
      assert made[..n][..i + 1] == made[..i + 1];
    }
  }

  lemma RemoveKeepsGood(cfg: Config, sent: seq<FlushBatch>, buffers: Buffers, n: int, received: seq<InsertRow>, cube: string)
    requires Good(cfg, sent, buffers, n, received) && cube in buffers && buffers[cube].rows == []
    ensures Good(cfg, sent, buffers - {cube}, n, received)
  {
    TotalWithout(buffers, cube);
    forall c ensures SentRows(sent, c) + BufferRows(buffers - {cube}, c) == RowsOf(received, c) {
      assert SentRows(sent, c) + BufferRows(buffers, c) == RowsOf(received, c);
    }
  }

  lemma Rejoined(before: seq<FlushBatch>, pending: seq<FlushBatch>, n: nat)
    requires n <= |pending|
    ensures before + Filter(pending[..n], NonEmpty()) + Filter(pending[n..], NonEmpty()) == before + Filter(pending, NonEmpty())
  {
    FilterAppend(pending[..n], pending[n..], NonEmpty());
    assert pending[..n] + pending[n..] == pending;
    Regroup(before, Filter(pending[..n], NonEmpty()), Filter(pending[n..], NonEmpty()));
  }

  lemma FinishKeepsGood(cfg: Config, sent: seq<FlushBatch>, buffers: Buffers, n: int, received: seq<InsertRow>, batch: FlushBatch)
    requires Good(cfg, sent, buffers, n, received)
    requires batch.cube in buffers && batch.rows == buffers[batch.cube].rows && batch.reason == Shutdown
    ensures Good(cfg, if batch.rows == [] then sent else sent + [batch], buffers - {batch.cube}, n - |batch.rows|, received)
  {
    if batch.rows == [] {
      RemoveKeepsGood(cfg, sent, buffers, n, received, batch.cube);
    } else {
      var drained := buffers[batch.cube := buffers[batch.cube].Drained()];
      BatchFits(cfg, sent, buffers, batch);
      FlushKeepsGood(cfg, sent, buffers, n, received, batch);
      RemoveKeepsGood(cfg, sent + [batch], drained, n - |batch.rows|, received, batch.cube);
      assert drained - {batch.cube} == buffers - {batch.cube};
    }
  }

  function RowsIn(signals: seq<Signal>): seq<InsertRow> {
    if signals == [] then []
    else
      var last := signals[|signals| - 1];
      RowsIn(signals[..|signals| - 1]) + if last.Row? then [last.row] else []
  }

  function StampsIn(signals: seq<Signal>): seq<int> {
    if signals == [] then []
    else
      var last := signals[|signals| - 1];
      StampsIn(signals[..|signals| - 1]) + if last.Row? then [last.at] else []
  }

  // ----- the worker

  // `Row` is the next row of the channel, `Tick` the periodic wake-up (or a
  // closed channel), `Stop` the shutdown signal; times are read when the row is
  // stored and again when the limits are checked.
  datatype Signal = Row(row: InsertRow, at: int, check: int) | Tick(now: int) | Stop

  // The receiving end of the flush channel fails from some send on.
  datatype Status = Running | Stopped | Failed

  class Worker {
    const config: Config
    // The number of sends the receiver accepts before it is dropped.
    const accepts: nat
    var buffers: Buffers
    var buffered: int
    var sent: seq<FlushBatch>
    var status: Status
    ghost var received: seq<InsertRow>
    // All batches made, and those of them that could not be sent.
    ghost var made: seq<FlushBatch>
    ghost var lost: seq<FlushBatch>

    constructor (cfg: Config, limit: nat)
      ensures config == cfg && accepts == limit && status == Running && sent == [] && received == [] && lost == [] && Valid()
    {
      config := cfg;
      accepts := limit;
      buffers := map[];
      buffered := 0;
      sent := [];
      status := Running;
      received := [];
      made, lost := [], [];
      new;
      assert Conserved(made, buffers, received);
    }

    // What was made is what was sent, then what was lost.
    ghost predicate Shared()
      reads this
    {
      made == sent + lost && (|sent| < accepts ==> lost == [])
    }

    ghost predicate Valid()
      reads this
    {
      && Good(config, made, buffers, buffered, received)
      && Shared()
      && (status == Failed ==> |sent| >= accepts)
      && (lost != [] ==> status == Failed)
    }

    method Send(batch: FlushBatch) returns (ok: bool)
      requires Shared()
      modifies this`sent, this`lost, this`made
      ensures Shared() && made == old(made) + [batch]
      ensures ok <==> |old(sent)| < accepts
      ensures sent == if ok then old(sent) + [batch] else old(sent)
      ensures lost == if ok then [] else old(lost) + [batch]
    {
      ok := |sent| < accepts;
      if ok { sent := sent + [batch]; } else { lost := lost + [batch]; }
      made := made + [batch];
    }

    method Drain(cube: string) returns (rows: seq<InsertRow>)
      requires cube in buffers
      modifies this`buffers, this`buffered
      ensures rows == old(buffers)[cube].rows && buffered == old(buffered) - |rows|
      ensures buffers == old(buffers)[cube := old(buffers)[cube].Drained()]
    {
      rows := buffers[cube].rows;
      buffers := buffers[cube := buffers[cube].Drained()];
      buffered := buffered - |rows|;
    }

    // Stores the row and drains its buffer if that is now due.
    method StoreRow(row: InsertRow, at: int, check: int) returns (batch: Option<FlushBatch>)
      modifies this`buffers, this`buffered
      ensures StoredRow(buffers, buffered, batch) == AfterRow(config, old(buffers), old(buffered), row, at, check)
    {
      var pushed := BufferOf(buffers, row.cube, at).Push(row, at);
      buffers := buffers[row.cube := pushed];
      buffered := buffered + 1;
      var reason := pushed.NeedsFlush(config, check);
      if reason.None? { return None; }
      var rows := Drain(row.cube);
      batch := Some(FlushBatch(row.cube, rows, reason.value));
    }

    method Receive(row: InsertRow, at: int, check: int) returns (ghost batches: seq<FlushBatch>)
      requires status == Running && Valid()
      modifies this
      ensures Valid() && received == old(received) + [row] && status != Stopped
      ensures made == old(made) + batches && Handled(config, old(buffers), Row(row, at, check), batches, buffers)
    {
      ReceiveKeepsGood(config, made, buffers, buffered, received, row, at, check);
      RowHandled(config, made, buffers, buffered, row, at, check);
      var batch := StoreRow(row, at, check);
      received := received + [row];
      batches := AsList(batch);
      SendIfAny(batch);
    }

    method SendIfAny(batch: Option<FlushBatch>)
      requires status == Running && Shared() && lost == []
      modifies this`sent, this`lost, this`made, this`status
      ensures Shared() && made == SentWith(old(made), batch)
      ensures status != Stopped && (status == Failed ==> |sent| >= accepts) && (lost != [] ==> status == Failed)
    {
      if batch.Some? {
        var ok := Send(batch.value);
        if !ok { status := Failed; }
      }
    }

    // Drains one buffer if it has reached a limit or is overdue.
    method DrainIfDue(cube: string, now: int) returns (batch: Option<FlushBatch>)
      requires cube in buffers
      modifies this`buffers, this`buffered
      ensures batch == DueBatch(config, old(buffers), cube, now)
      ensures buffers == AfterVisit(config, old(buffers), cube, now)
      ensures buffered == old(buffered) - if batch.Some? then |batch.value.rows| else 0
    {
      var reason := buffers[cube].NeedsFlush(config, now);
      if reason.None? { return None; }
      var rows := Drain(cube);
      batch := Some(FlushBatch(cube, rows, reason.value));
    }

    method Visit(cube: string, now: int, pending: seq<FlushBatch>, ghost before: Buffers, ghost todo: set<string>) returns (more: seq<FlushBatch>)
      requires Rounding(config, made, pending, before, buffers, buffered, received, now, todo) && cube in todo
      modifies this`buffers, this`buffered
      ensures Rounding(config, made, more, before, buffers, buffered, received, now, todo - {cube})
    {
      RoundProceeds(config, made, pending, before, buffers, buffered, received, now, todo, cube);
      var batch := DrainIfDue(cube, now);
      more := if batch.Some? then pending + [batch.value] else pending;
    }

    // The first half of the periodic round: drains every buffer that has reached
    // a limit or is overdue, and leaves the others as they are.
    method DrainDue(now: int) returns (pending: seq<FlushBatch>)
      requires Good(config, made, buffers, buffered, received)
      modifies this`buffers, this`buffered
      ensures Good(config, made + Filter(pending, NonEmpty()), buffers, buffered, received)
      ensures Handled(config, old(buffers), Tick(now), Filter(pending, NonEmpty()), buffers)
    {
      pending := [];
      var todo := buffers.Keys;
      RoundStarts(config, made, buffers, buffered, received, now);
      while todo != {}
        invariant Rounding(config, made, pending, old(buffers), buffers, buffered, received, now, todo)
        decreases todo
      {
        var cube :| cube in todo;
        pending := Visit(cube, now, pending, old(buffers), todo);
        todo := todo - {cube};
      }
      RoundEnds(config, made, pending, old(buffers), buffers, buffered, received, now);
    }

    // The periodic round: the buffers that are due are drained, and no others,
    // then the batches are sent.
    method Round(now: int) returns (ghost batches: seq<FlushBatch>)
      requires status == Running && Valid()
      modifies this
      ensures Valid() && received == old(received) && status != Stopped
      ensures made == old(made) + batches && Handled(config, old(buffers), Tick(now), batches, buffers)
      ensures forall cube :: cube in buffers ==> !Overdue(config, buffers[cube], now)
    {
      var pending := DrainDue(now);
      SendPending(pending);
      batches := Filter(pending, NonEmpty());
    }

    // The first send that fails ends the round, and what is left is lost.
    method SendPending(pending: seq<FlushBatch>)
      requires status == Running && Shared() && lost == []
      modifies this`sent, this`status, this`lost, this`made
      ensures Shared() && made == old(made) + Filter(pending, NonEmpty())
      ensures status == Running ==> lost == []
      ensures status == Running || (status == Failed && |sent| >= accepts)
    {
      var i := 0;
      while i < |pending|
        invariant 0 <= i <= |pending| && status == Running && Shared() && lost == []
        invariant made == old(made) + Filter(pending[..i], NonEmpty())
      {
        FilterSnoc(pending, i, NonEmpty());
        if pending[i].rows != [] {
          Regroup(old(made), Filter(pending[..i], NonEmpty()), [pending[i]]);
          var ok := Send(pending[i]);
          if !ok {
            Abandon(pending[i + 1..]);
            Rejoined(old(made), pending, i + 1);
            return;
          }
        } else {
          assert Filter(pending[..i], NonEmpty()) + [] == Filter(pending[..i], NonEmpty());
        }
        i := i + 1;
      }
      assert pending[..i] == pending;
    }

    // The worker gives up and drops the batches it still holds.
    method Abandon(rest: seq<FlushBatch>)
      requires Shared() && |sent| >= accepts
      modifies this`status, this`lost, this`made
      ensures Shared() && made == old(made) + Filter(rest, NonEmpty()) && status == Failed
    {
      status := Failed;
      lost := lost + Filter(rest, NonEmpty());
      made := made + Filter(rest, NonEmpty());
    }

    // Everything buffered is sent, whatever order the cubes come in; a send
    // that fails loses its batch.
    method Finish() returns (ghost batches: seq<FlushBatch>)
      requires status == Running && Valid()
      modifies this
      ensures Valid() && received == old(received) && status != Running && buffers == map[]
      ensures made == old(made) + batches && Handled(config, old(buffers), Stop, batches, buffers)
    {
      status := Stopped;
      batches := [];
      while buffers != map[]
        invariant Valid() && received == old(received) && status != Running
        invariant made == old(made) + batches && Finishing(config, old(buffers), batches, buffers)
        decreases |buffers|
      {
        var cube :| cube in buffers;
        batches := FinishOne(cube, old(made), old(buffers), batches);
      }
    }

    method FinishOne(cube: string, ghost earlier: seq<FlushBatch>, ghost before: Buffers, ghost batches: seq<FlushBatch>) returns (ghost more: seq<FlushBatch>)
      requires Valid() && status != Running && cube in buffers
      requires made == earlier + batches && Finishing(config, before, batches, buffers)
      modifies this
      ensures Valid() && received == old(received) && status != Running && buffers == old(buffers) - {cube}
      ensures made == earlier + more && Finishing(config, before, more, buffers)
    {
      ghost var batch := FlushBatch(cube, buffers[cube].rows, Shutdown);
      FinishKeepsGood(config, made, buffers, buffered, received, batch);
      FinishingMore(config, before, batches, buffers, batch);
      Regroup(earlier, batches, [batch]);
      TakeOut(cube);
      more := if batch.rows == [] then batches else batches + [batch];
    }

    method TakeOut(cube: string)
      requires cube in buffers && status != Running && Shared() && (status == Failed ==> |sent| >= accepts) && (lost != [] ==> status == Failed)
      modifies this`buffers, this`buffered, this`sent, this`lost, this`made, this`status
      ensures status != Running && Shared() && (status == Failed ==> |sent| >= accepts) && (lost != [] ==> status == Failed)
      ensures var rows := old(buffers)[cube].rows;
        && buffers == old(buffers) - {cube} && buffered == old(buffered) - |rows|
        && made == if rows == [] then old(made) else old(made) + [FlushBatch(cube, rows, Shutdown)]
    {
      var rows := Remove(cube);
      if rows != [] {
        var ok := Send(FlushBatch(cube, rows, Shutdown));
        if !ok { status := Failed; }
      }
    }

    method Remove(cube: string) returns (rows: seq<InsertRow>)
      requires cube in buffers
      modifies this`buffers, this`buffered
      ensures rows == old(buffers)[cube].rows && buffers == old(buffers) - {cube} && buffered == old(buffered) - |rows|
    {
      rows := buffers[cube].rows;
      buffers := buffers - {cube};
      buffered := buffered - |rows|;
    }

    method Handle(signal: Signal) returns (ghost batches: seq<FlushBatch>)
      requires status == Running && Valid()
      modifies this
      ensures Valid() && received == RowsWith(old(received), signal)
      ensures made == old(made) + batches && Handled(config, old(buffers), signal, batches, buffers)
      ensures if signal.Stop? then status != Running && buffers == map[] else status != Stopped
    {
      match signal {
        case Row(row, at, check) => batches := Receive(row, at, check);
        case Tick(now) => batches := Round(now);
        case Stop => batches := Finish();
      }
    }

    // The worker has received the rows of these signals, and made its batches on
    // `causes` among them.
    ghost predicate Following(signals: seq<Signal>, causes: seq<Signal>)
      reads this
    {
      && received == RowsIn(signals)
      && (forall cause :: cause in causes ==> cause in signals)
      && Timely(config, made, causes, buffers, received, StampsIn(signals))
    }

    method HandleNext(signals: seq<Signal>, i: nat, ghost causes: seq<Signal>) returns (ghost more: seq<Signal>)
      requires status == Running && Valid() && i < |signals| && Following(signals[..i], causes)
      modifies this
      ensures Valid() && Following(signals[..i + 1], more)
      ensures if signals[i].Stop? then status != Running && buffers == map[] else status != Stopped
    {
      ghost var before, earlier, rows := buffers, made, received;
      ghost var batches := Handle(signals[i]);
      SignalsMore(signals, i, causes, |batches|);
      HandledTimely(config, earlier, causes, before, rows, StampsIn(signals[..i]), signals[i], batches, buffers);
      more := causes + Repeated(signals[i], |batches|);
    }

    // The worker's loop over any signals: it stops at the shutdown signal or at
    // the first send that fails. After a shutdown every row it received has been
    // sent, cube by cube and in order; after a failure it is sent, in a batch
    // that was lost, or still buffered.
    method RunBuffer(signals: seq<Signal>) returns (ghost seen: nat, ghost causes: seq<Signal>)
      requires status == Running && received == [] && Valid()
      modifies this
      ensures Valid() && seen <= |signals| && Following(signals[..seen], causes)
      ensures status == Running ==> seen == |signals|
      ensures Served(signals[..seen], status) && (status == Stopped ==> buffers == map[])
      ensures forall cube :: SentRows(sent, cube) + SentRows(lost, cube) + BufferRows(buffers, cube) == RowsOf(received, cube)
    {
      seen, causes := HandleAll(signals);
      AccountedFor(sent, lost, buffers, received);
    }

    method HandleAll(signals: seq<Signal>) returns (ghost seen: nat, ghost causes: seq<Signal>)
      requires status == Running && received == [] && Valid()
      modifies this
      ensures Valid() && seen <= |signals| && Following(signals[..seen], causes)
      ensures status == Running ==> seen == |signals|
      ensures Served(signals[..seen], status) && (status == Stopped ==> buffers == map[])
    {
      var i := 0;
      seen := 0;
      causes := [];
      StartsTimely(config, made, buffers, buffered);
      while i < |signals| && status == Running
        invariant 0 <= i <= |signals| && i == seen && Valid()
        invariant Following(signals[..i], causes)
        invariant Served(signals[..i], status) && (status == Stopped ==> buffers == map[])
        decreases |signals| - i
      {
        causes := HandleNext(signals, i, causes);
        ServedMore(signals, i, status);
        i := i + 1;
        seen := i;
      }
    }
  }

  // Only the last of the signals may be a shutdown, and it is if the worker
  // stopped, and not if it runs on.
  predicate Served(signals: seq<Signal>, status: Status) {
    && (forall i :: 0 <= i < |signals| - 1 ==> !signals[i].Stop?)
    && (status == Running ==> signals == [] || !signals[|signals| - 1].Stop?)
    && (status == Stopped ==> signals != [] && signals[|signals| - 1].Stop?)
  }

  lemma ServedMore(signals: seq<Signal>, i: nat, status: Status)
    requires i < |signals| && Served(signals[..i], Running) && if signals[i].Stop? then status != Running else status != Stopped
    ensures Served(signals[..i + 1], status)
  {
  }

  lemma LastIsSent(cfg: Config, made: seq<FlushBatch>)
    requires BatchesRight(cfg, made) && made != []
    ensures SentRows(made, made[|made| - 1].cube) != []
  {
    assert BatchRight(cfg, made[|made| - 1]);
  }

  lemma NothingMade(cfg: Config, made: seq<FlushBatch>, buffers: Buffers, n: int)
    requires Good(cfg, made, buffers, n, [])
    ensures made == []
  {
    if made != [] { LastIsSent(cfg, made); }
  }

  lemma StartsTimely(cfg: Config, made: seq<FlushBatch>, buffers: Buffers, n: int)
    requires Good(cfg, made, buffers, n, [])
    ensures Timely(cfg, made, [], buffers, [], [])
  {
    NothingMade(cfg, made, buffers, n);
    forall cube ensures DatedAt(buffers, [], [], cube) {
      assert SentRows(made, cube) + BufferRows(buffers, cube) == RowsOf([], cube);
    }
  }

  lemma SignalsMore(signals: seq<Signal>, i: nat, causes: seq<Signal>, n: nat)
    requires i < |signals| && forall cause :: cause in causes ==> cause in signals[..i]
    ensures RowsIn(signals[..i + 1]) == RowsWith(RowsIn(signals[..i]), signals[i])
    ensures StampsIn(signals[..i + 1]) == StampsWith(StampsIn(signals[..i]), signals[i])
    ensures forall cause :: cause in causes + Repeated(signals[i], n) ==> cause in signals[..i + 1]
  {
    assert signals[..i + 1][..i] == signals[..i] && signals[..i + 1][i] == signals[i];
    assert signals[..i + 1] == signals[..i] + [signals[i]];
  }

  lemma {:induction false} SentAppend(a: seq<FlushBatch>, b: seq<FlushBatch>, cube: string)
    ensures SentRows(a + b, cube) == SentRows(a, cube) + SentRows(b, cube)
  {
    if b == [] {
      assert a + b == a;
    } else {
      var n := |b| - 1;
      var tail := if b[n].cube == cube then b[n].rows else [];
      calc {
        SentRows(a + b, cube);
        { TakeOneMore(a, b, n); assert b[..n + 1] == b; }
        SentRows((a + b[..n]) + [b[n]], cube);
        { SentMore(a + b[..n], b[n], cube); }
        SentRows(a + b[..n], cube) + tail;
        { SentAppend(a, b[..n], cube); }
        (SentRows(a, cube) + SentRows(b[..n], cube)) + tail;
        { Regroup(SentRows(a, cube), SentRows(b[..n], cube), tail); }
        SentRows(a, cube) + (SentRows(b[..n], cube) + tail);
      }
    }
  }

  lemma AccountedFor(sent: seq<FlushBatch>, lost: seq<FlushBatch>, buffers: Buffers, received: seq<InsertRow>)
    requires Conserved(sent + lost, buffers, received)
    ensures forall cube :: SentRows(sent, cube) + SentRows(lost, cube) + BufferRows(buffers, cube) == RowsOf(received, cube)
  {
    forall cube ensures SentRows(sent, cube) + SentRows(lost, cube) + BufferRows(buffers, cube) == RowsOf(received, cube) {
      assert SentRows(sent + lost, cube) + BufferRows(buffers, cube) == RowsOf(received, cube);
      SentAppend(sent, lost, cube);
    }
  }
}
