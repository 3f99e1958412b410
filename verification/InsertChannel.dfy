// The channel between the callers of the asynchronous INSERT buffer and its
// worker: which rows the worker sees before it stops, and which stop requests
// it sees at all.
module InsertChannel {
  import opened AsyncInsert
  import opened Common

  // `Insert` and `AskStop` are the callers' requests. The worker starts to wait
  // with `Wait`; it stops waiting when it takes a row, wakes up, or sees that a
  // stop was asked for, and which of those that are ready it picks is free.
  // Having seen the stop it sends what it holds, and then leaves.
  datatype Event =
    | Insert(row: InsertRow)
    | AskStop
    | Wait
    | TakeRow(at: int, check: int)
    | WakeUp(now: int)
    | SeeStop
    | Leave

  // `asked` is the notification of the current wait: a request reaches a worker
  // that is waiting and no other, and is gone when the wait ends. The channel is
  // open until the worker leaves.
  datatype Channel = Channel(queue: seq<InsertRow>, waiting: bool, asked: bool, stopping: bool, closed: bool, accepted: seq<InsertRow>, signals: seq<Signal>)

  const OPENED := Channel([], false, false, false, false, [], [])

  function Step(cap: nat, ch: Channel, e: Event): Channel {
    if ch.closed then ch
    else match e
      case Insert(row) => if |ch.queue| < cap then ch.(queue := ch.queue + [row], accepted := ch.accepted + [row]) else ch
      case AskStop => ch.(asked := ch.waiting)
      case Wait => ch.(waiting := !ch.stopping)
      case TakeRow(at, check) =>
        if ch.waiting && ch.queue != [] then
          ch.(queue := ch.queue[1..], waiting := false, asked := false, signals := ch.signals + [Row(ch.queue[0], at, check)])
        else ch
      case WakeUp(now) =>
        if ch.waiting then ch.(waiting := false, asked := false, signals := ch.signals + [Tick(now)]) else ch
      case SeeStop =>
        if ch.waiting && ch.asked then ch.(waiting := false, asked := false, stopping := true, signals := ch.signals + [Stop]) else ch
      case Leave => ch.(closed := ch.stopping)
  }

  function Run(cap: nat, events: seq<Event>): Channel {
    if events == [] then OPENED else Step(cap, Run(cap, events[..|events| - 1]), events[|events| - 1])
  }

  // Every accepted row was taken or waits in the channel, in order.
  ghost predicate Accounted(ch: Channel) {
    ch.accepted == RowsIn(ch.signals) + ch.queue
  }

  // The worker's signals end with its stop.
  ghost predicate StopsOnce(ch: Channel) {
    && (ch.stopping <==> ch.signals != [] && ch.signals[|ch.signals| - 1].Stop?)
    && (forall i :: 0 <= i < |ch.signals| - 1 ==> !ch.signals[i].Stop?)
    && (ch.stopping ==> !ch.waiting) && (ch.closed ==> ch.stopping)
  }

  ghost predicate Orderly(cap: nat, ch: Channel) {
    Accounted(ch) && StopsOnce(ch) && |ch.queue| <= cap && (ch.asked ==> ch.waiting)
  }

  lemma RowsInMore(signals: seq<Signal>, s: Signal)
    ensures RowsIn(signals + [s]) == RowsIn(signals) + if s.Row? then [s.row] else []
  {
    assert (signals + [s])[..|signals|] == signals;
  }

  lemma TakeAccounts(rows: seq<InsertRow>, queue: seq<InsertRow>)
    requires queue != []
    ensures rows + queue == (rows + [queue[0]]) + queue[1..]
  {
    MoveHead(rows, queue);
  }

  lemma StepAccounts(cap: nat, ch: Channel, e: Event)
    requires Accounted(ch)
    ensures Accounted(Step(cap, ch, e))
  {
    match e {
      case Insert(row) => Regroup(RowsIn(ch.signals), ch.queue, [row]);
      case TakeRow(at, check) =>
        if ch.queue != [] {
          RowsInMore(ch.signals, Row(ch.queue[0], at, check));
          TakeAccounts(RowsIn(ch.signals), ch.queue);
        }
      case WakeUp(now) => RowsInMore(ch.signals, Tick(now));
      case SeeStop => RowsInMore(ch.signals, Stop);
      case _ =>
    }
  }

  lemma StepStopsOnce(cap: nat, ch: Channel, e: Event)
    requires StopsOnce(ch)
    ensures StopsOnce(Step(cap, ch, e))
  {
  }

  lemma {:induction false} RunOrderly(cap: nat, events: seq<Event>)
    ensures Orderly(cap, Run(cap, events))
  {
    if events != [] {
      RunOrderly(cap, events[..|events| - 1]);
      StepAccounts(cap, Run(cap, events[..|events| - 1]), events[|events| - 1]);
      StepStopsOnce(cap, Run(cap, events[..|events| - 1]), events[|events| - 1]);
    }
  }

  // ----- what a stop loses

  // The rows of a cube that were accepted after the last row the worker took.
  function Untaken(ch: Channel, cube: string): seq<InsertRow> {
    RowsOf(ch.queue, cube)
  }

  predicate Taken(ch: Channel, k: nat) {
    k < |ch.accepted| - |ch.queue|
  }

  lemma NoneOfCube(rows: seq<InsertRow>, n: nat, cube: string)
    requires n <= |rows|
    ensures RowsOf(rows[n..], cube) == [] <==> forall k :: 0 <= k < |rows| && rows[k].cube == cube ==> k < n
  {
    var rest := rows[n..];
    if RowsOf(rest, cube) == [] {
      forall k | n <= k < |rows| ensures rows[k].cube != cube {
        FilterIn(rest, InCube(cube), rows[k]);
        assert rest[k - n] == rows[k];
      }
    } else if forall k :: 0 <= k < |rows| && rows[k].cube == cube ==> k < n {
      FilterNone(rest, InCube(cube));
    }
  }

  lemma OnlyTheFirst<T>(a: seq<T>, b: seq<T>, c: seq<T>, d: seq<T>)
    ensures a == a + b + c + d <==> b == [] && c == [] && d == []
  {
    assert |a + b + c + d| == |a| + |b| + |c| + |d|;
  }

  // Every accepted row of a cube was sent, was in a batch that could not be
  // sent, is buffered, or is in the channel. They were all sent if and only if
  // no batch or buffer holds one and the worker took each of them.
  lemma ArrivalExact(cap: nat, events: seq<Event>, sent: seq<FlushBatch>, lost: seq<FlushBatch>, buffers: Buffers, cube: string)
    requires SentRows(sent, cube) + SentRows(lost, cube) + BufferRows(buffers, cube) == RowsOf(RowsIn(Run(cap, events).signals), cube)
    ensures var ch := Run(cap, events);
      && RowsOf(ch.accepted, cube) == SentRows(sent, cube) + SentRows(lost, cube) + BufferRows(buffers, cube) + Untaken(ch, cube)
      && (SentRows(sent, cube) == RowsOf(ch.accepted, cube) <==>
          && SentRows(lost, cube) == [] && BufferRows(buffers, cube) == []
          && forall k :: 0 <= k < |ch.accepted| && ch.accepted[k].cube == cube ==> Taken(ch, k))
  {
    var ch := Run(cap, events);
    RunOrderly(cap, events);
    FilterAppend(RowsIn(ch.signals), ch.queue, InCube(cube));
    NoneOfCube(ch.accepted, |ch.accepted| - |ch.queue|, cube);
    assert ch.accepted[|ch.accepted| - |ch.queue|..] == ch.queue;
    OnlyTheFirst(SentRows(sent, cube), SentRows(lost, cube), BufferRows(buffers, cube), Untaken(ch, cube));
  }

  lemma StepSignals(cap: nat, ch: Channel, e: Event)
    ensures ch.signals <= Step(cap, ch, e).signals
  {
  }

  lemma {:induction false} SignalsGrow(cap: nat, events: seq<Event>, k: nat)
    requires k <= |events|
    ensures Run(cap, events[..k]).signals <= Run(cap, events).signals
  {
    if k == |events| {
      assert events[..k] == events;
    } else {
      var n := |events| - 1;
      SignalsGrow(cap, events[..n], k);
      assert events[..n][..k] == events[..k];
      StepSignals(cap, Run(cap, events[..n]), events[n]);
    }
  }

  // The worker has handled the signals of the run's first `k` events.
  ghost predicate HandledAt(cap: nat, events: seq<Event>, seen: nat, k: nat) {
    k <= |events| && |Run(cap, events[..k]).signals| == seen
  }

  // The buffer as a whole, over any run of its callers and its worker. At every
  // moment after its last signal each accepted row is accounted for; a worker
  // that stopped lost no batch and left no buffer, one that failed may have.
  method Serve(worker: Worker, cap: nat, events: seq<Event>) returns (ghost seen: nat)
    requires worker.status == Running && worker.received == [] && worker.Valid()
    modifies worker
    ensures worker.Valid() && seen <= |Run(cap, events).signals|
    ensures worker.status != Failed ==> HandledAt(cap, events, seen, |events|) && worker.lost == []
    ensures worker.status == Running ==> !Run(cap, events).stopping
    ensures worker.status == Stopped ==> Run(cap, events).stopping && worker.buffers == map[]
    ensures forall k: nat, cube :: HandledAt(cap, events, seen, k) ==>
      RowsOf(Run(cap, events[..k]).accepted, cube) ==
      SentRows(worker.sent, cube) + SentRows(worker.lost, cube) + BufferRows(worker.buffers, cube) + Untaken(Run(cap, events[..k]), cube)
  {
    var ch := Run(cap, events);
    RunOrderly(cap, events);
    ghost var causes;
    seen, causes := worker.RunBuffer(ch.signals);
    assert events[..|events|] == events;
    forall k: nat, cube | HandledAt(cap, events, seen, k)
      ensures RowsOf(Run(cap, events[..k]).accepted, cube) ==
        SentRows(worker.sent, cube) + SentRows(worker.lost, cube) + BufferRows(worker.buffers, cube) + Untaken(Run(cap, events[..k]), cube)
    {
      SignalsGrow(cap, events, k);
      assert Run(cap, events[..k]).signals == ch.signals[..seen];
      ArrivalExact(cap, events[..k], worker.sent, worker.lost, worker.buffers, cube);
    }
  }

  lemma RunMore(cap: nat, events: seq<Event>, e: Event)
    ensures Run(cap, events + [e]) == Step(cap, Run(cap, events), e)
  {
    assert (events + [e])[..|events|] == events;
  }

  lemma RunThen(cap: nat, events: seq<Event>, a: Event, b: Event)
    ensures Run(cap, events + [a] + [b]) == Step(cap, Step(cap, Run(cap, events), a), b)
  {
    RunMore(cap, events, a);
    RunMore(cap, events + [a], b);
  }

  lemma StopAfterInsert(cap: nat, ch: Channel, row: InsertRow)
    requires !ch.stopping && !ch.closed && |ch.queue| < cap
    ensures var waiting := Step(cap, Step(cap, ch, Insert(row)), Wait);
      var after := Step(cap, Step(cap, waiting, AskStop), SeeStop);
      after.stopping && after.accepted == ch.accepted + [row] && !Taken(after, |after.accepted| - 1)
  {
  }

  // Any run that is not stopping and has room can be continued to one that is,
  // with an accepted row never taken.
  lemma StopLosesRow(cap: nat, events: seq<Event>, row: InsertRow)
    requires !Run(cap, events).stopping && |Run(cap, events).queue| < cap
    ensures var ch := Run(cap, events + [Insert(row)] + [Wait] + [AskStop] + [SeeStop]);
      ch.stopping && ch.accepted == Run(cap, events).accepted + [row] && !Taken(ch, |ch.accepted| - 1)
  {
    RunOrderly(cap, events);
    RunThen(cap, events, Insert(row), Wait);
    RunThen(cap, events + [Insert(row)] + [Wait], AskStop, SeeStop);
    StopAfterInsert(cap, Run(cap, events), row);
  }

  // The worker is stopping and has taken no row since.
  predicate TakesNone(ch: Channel, later: Channel) {
    && later.stopping && !later.waiting && later.signals == ch.signals && ch.queue <= later.queue
    && |later.accepted| - |later.queue| == |ch.accepted| - |ch.queue|
  }

  lemma StoppingStep(cap: nat, ch: Channel, later: Channel, e: Event)
    requires TakesNone(ch, later)
    ensures TakesNone(ch, Step(cap, later, e))
  {
  }

  // Once the stop is seen no row is taken any more, whatever is still accepted
  // until the worker leaves.
  lemma {:induction false} StoppingTakesNone(cap: nat, events: seq<Event>, more: seq<Event>)
    requires Run(cap, events).stopping
    ensures TakesNone(Run(cap, events), Run(cap, events + more))
    ensures forall k :: |Run(cap, events).accepted| <= k < |Run(cap, events + more).accepted| ==> !Taken(Run(cap, events + more), k)
    decreases |more|
  {
    if more == [] {
      assert events + more == events;
      RunOrderly(cap, events);
    } else {
      var n := |more| - 1;
      StoppingTakesNone(cap, events, more[..n]);
      RunLast(cap, events, more);
      StoppingStep(cap, Run(cap, events), Run(cap, events + more[..n]), more[n]);
    }
  }

  lemma RunLast(cap: nat, events: seq<Event>, more: seq<Event>)
    requires more != []
    ensures Run(cap, events + more) == Step(cap, Run(cap, events + more[..|more| - 1]), more[|more| - 1])
  {
    var n := |more| - 1;
    assert events + more == events + more[..n] + [more[n]];
    RunMore(cap, events + more[..n], more[n]);
  }

  // No run loses more rows than the channel holds.
  lemma LossBound(cap: nat, events: seq<Event>, k: nat)
    ensures k + cap < |Run(cap, events).accepted| ==> Taken(Run(cap, events), k)
  {
    RunOrderly(cap, events);
  }

  // ----- which stop requests are seen

  // The event at `k` asks a waiting worker to stop, and no wait ended since.
  ghost predicate AsksNow(cap: nat, events: seq<Event>, k: nat)
    requires k < |events|
  {
    && events[k].AskStop? && Run(cap, events[..k]).waiting && !Run(cap, events[..k]).closed
    && forall j :: k <= j <= |events| ==> Run(cap, events[..j]).signals == Run(cap, events).signals
  }

  lemma AsksBefore(cap: nat, events: seq<Event>, k: nat)
    requires k < |events| - 1
    ensures var before := events[..|events| - 1];
      AsksNow(cap, events, k) <==> AsksNow(cap, before, k) && Run(cap, before).signals == Run(cap, events).signals
  {
    var before := events[..|events| - 1];
    assert forall j :: 0 <= j <= |before| ==> before[..j] == events[..j];
    assert before[..|before|] == before && events[..|events|] == events;
  }

  // The notification is there exactly when a stop was asked for during the
  // current wait.
  lemma {:induction false} AskedExact(cap: nat, events: seq<Event>)
    ensures Run(cap, events).asked <==> exists k :: 0 <= k < |events| && AsksNow(cap, events, k)
  {
    if events != [] {
      var n := |events| - 1;
      var before := Run(cap, events[..n]);
      AskedExact(cap, events[..n]);
      RunOrderly(cap, events[..n]);
      assert events[..|events|] == events;
      forall k | 0 <= k < n ensures AsksNow(cap, events, k) <==> AsksNow(cap, events[..n], k) && before.signals == Run(cap, events).signals {
        AsksBefore(cap, events, k);
      }
      assert AsksNow(cap, events, n) <==> events[n].AskStop? && before.waiting && !before.closed;
      StepAsked(cap, before, events[n]);
    }
  }

  lemma StepAsked(cap: nat, ch: Channel, e: Event)
    requires Orderly(cap, ch)
    ensures Step(cap, ch, e).asked <==>
      (ch.asked && Step(cap, ch, e).signals == ch.signals) || (e.AskStop? && ch.waiting && !ch.closed)
  {
  }

  // The worker stops exactly when a stop was asked for during the wait in which
  // it looks: a request made while it is busy is never seen.
  lemma StopSeenExact(cap: nat, events: seq<Event>)
    requires !Run(cap, events).stopping
    ensures Run(cap, events + [SeeStop]).stopping <==> exists k :: 0 <= k < |events| && AsksNow(cap, events, k)
    ensures !Run(cap, events).waiting ==> Run(cap, events + [AskStop]) == Run(cap, events)
  {
    AskedExact(cap, events);
    RunOrderly(cap, events);
    RunMore(cap, events, SeeStop);
    RunMore(cap, events, AskStop);
  }
}
