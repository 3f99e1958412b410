// One transaction across its coordinator and its storage nodes, with the
// driver that carries messages between them: it acknowledges a node only after
// that node's prepare succeeded, sends one decision, and decides to commit only
// when the coordinator is Prepared. Messages may be delayed, repeated and
// reordered, nodes may time out, and finished entries may be forgotten and the
// transaction registered anew.
module TwoPhaseCommit {
  import opened Common
  import Coordinator
  import StorageTx

  datatype Decision = Decision(commit: bool, targets: set<string>)

  // `acks` are the prepare acknowledgements sent so far. `committed` and
  // `rolledBack` record the nodes that ever reached that outcome, `expired`
  // those that a timeout rolled back.
  datatype System = System(
    tx: Coordinator.Transaction,
    nodes: map<string, StorageTx.SnTransaction>,
    acks: set<string>,
    decision: Option<Decision>,
    committed: set<string>,
    rolledBack: set<string>,
    expired: set<string>)

  datatype Event =
    | Enlist(n: string, endpoint: string)
    | Write(n: string, tablet: string)
    | Prepare(n: string, lsn: nat, timedOut: bool)
    | DeliverAck(n: string)
    | DecideCommit
    | DecideAbort
    | DeliverDecision(n: string)
    | MarkCommitted
    | Expire(n: string)
    | Forget(n: string)

  function Start(cube: string): System {
    System(Coordinator.NewTransaction(cube), map[], {}, None, {}, {}, {})
  }

  function Targets(tx: Coordinator.Transaction): set<string> {
    set i | 0 <= i < |tx.participants| :: tx.participants[i].node
  }

  // A node's entry changes, and its outcome is recorded.
  function WithEntry(s: System, n: string, t: StorageTx.SnTransaction): System {
    s.(nodes := s.nodes[n := t],
       committed := if t.state == StorageTx.Committed then s.committed + {n} else s.committed,
       rolledBack := if t.state == StorageTx.RolledBack then s.rolledBack + {n} else s.rolledBack)
  }

  function Entry(s: System, n: string): StorageTx.SnTransaction {
    if n in s.nodes then s.nodes[n] else StorageTx.NEW
  }

  // What a node does with the decision.
  function Obey(d: Decision, t: StorageTx.SnTransaction): StorageTx.SnTransaction {
    StorageTx.Apply(t, if d.commit then StorageTx.DoCommit else StorageTx.DoRollback)
  }

  // An event that is not enabled changes nothing.
  function Step(s: System, e: Event): System {
    match e
    case Enlist(n, endpoint) => s.(tx := Coordinator.Apply(s.tx, Coordinator.DoRegister(n, endpoint)))
    case Write(n, tablet) => s.(nodes := s.nodes[n := StorageTx.Apply(Entry(s, n), StorageTx.DoAddTablet(tablet))])
    case Prepare(n, lsn, timedOut) =>
      if n !in s.nodes || s.nodes[n].state != StorageTx.Active then s
      else
        var r := WithEntry(s, n, StorageTx.Apply(s.nodes[n], StorageTx.DoPrepare(lsn, timedOut)));
        if timedOut then r.(expired := s.expired + {n}) else r.(acks := s.acks + {n})
    case DeliverAck(n) =>
      if n in s.acks then s.(tx := Coordinator.Apply(s.tx, Coordinator.DoAck(n))) else s
    case DecideCommit =>
      if s.decision.None? && s.tx.state == Coordinator.Prepared
      then s.(decision := Some(Decision(true, Targets(s.tx))))
      else s
    case DecideAbort =>
      if s.decision.None?
      then s.(tx := Coordinator.Apply(s.tx, Coordinator.DoRollback), decision := Some(Decision(false, Targets(s.tx))))
      else s
    case DeliverDecision(n) =>
      if s.decision.Some? && n in s.decision.value.targets && n in s.nodes
      then WithEntry(s, n, Obey(s.decision.value, s.nodes[n]))
      else s
    case MarkCommitted =>
      if s.decision.Some? && s.decision.value.commit
      then s.(tx := Coordinator.Apply(s.tx, Coordinator.DoMarkCommitted))
      else s
    case Expire(n) =>
      if n in s.nodes && StorageTx.Open(s.nodes[n].state)
      then s.(nodes := s.nodes - {n}, rolledBack := s.rolledBack + {n}, expired := s.expired + {n})
      else s
    case Forget(n) =>
      if n in s.nodes && !StorageTx.Open(s.nodes[n].state) then s.(nodes := s.nodes - {n}) else s
  }

  function Run(cube: string, events: seq<Event>): System {
    if events == [] then Start(cube) else Step(Run(cube, events[..|events| - 1]), events[|events| - 1])
  }

  // ----- the invariant

  predicate Holds(t: StorageTx.SnTransaction) {
    t.state == StorageTx.Prepared || t.state == StorageTx.Committed
  }

  predicate Committing(s: System) {
    s.decision.Some? && s.decision.value.commit
  }

  predicate Aborting(s: System) {
    s.decision.Some? && !s.decision.value.commit
  }

  // A node that acknowledged keeps its promise: it has committed or is able to,
  // unless it was told to abort or timed out.
  ghost predicate Kept(s: System, n: string) {
    Aborting(s) || n in s.expired || n in s.committed || (n in s.nodes && Holds(s.nodes[n]))
  }

  ghost predicate AcksKept(s: System) {
    forall n :: n in s.acks ==> Kept(s, n)
  }

  ghost predicate FlagsAcked(s: System) {
    forall i :: 0 <= i < |s.tx.participants| && s.tx.participants[i].prepared ==> s.tx.participants[i].node in s.acks
  }

  ghost predicate PreparedAcked(s: System) {
    && (s.tx.state == Coordinator.Prepared ==> Coordinator.AllPrepared(s.tx.participants))
    && (Committing(s) ==> s.decision.value.targets <= s.acks)
  }

  ghost predicate OutcomesDecided(s: System) {
    && (s.committed != {} ==> Committing(s))
    && (forall n :: n in s.rolledBack ==> Aborting(s) || n in s.expired)
    && s.expired <= s.rolledBack
    && (forall n :: n in s.nodes ==>
          && (s.nodes[n].state == StorageTx.Committed ==> n in s.committed)
          && (s.nodes[n].state == StorageTx.RolledBack ==> n in s.rolledBack))
  }

  ghost predicate Inv(s: System) {
    AcksKept(s) && FlagsAcked(s) && PreparedAcked(s) && OutcomesDecided(s)
  }

  lemma AckKeepsFlags(s: System, n: string)
    requires Inv(s) && n in s.acks
    ensures Inv(Step(s, DeliverAck(n)))
  {
    Coordinator.MarkFirstExact(s.tx.participants, n);
    var r := Step(s, DeliverAck(n));
    forall m | m in r.acks ensures Kept(r, m) {
      assert Kept(s, m);
    }
  }

  // An event that changes one node's entry only.
  lemma EntryKeepsAcks(s: System, e: Event)
    requires Inv(s) && (e.Write? || e.Prepare? || e.DeliverDecision? || e.Expire? || e.Forget?)
    ensures AcksKept(Step(s, e)) && OutcomesDecided(Step(s, e))
  {
    var r := Step(s, e);
    forall m | m in r.acks ensures Kept(r, m) {
      if m in s.acks { assert Kept(s, m); }
    }
  }

  lemma DecisionKeepsInv(s: System, e: Event)
    requires Inv(s) && (e.DecideCommit? || e.DecideAbort? || e.MarkCommitted? || e.Enlist?)
    ensures Inv(Step(s, e))
  {
    var r := Step(s, e);
    forall m | m in r.acks ensures Kept(r, m) {
      assert Kept(s, m);
    }
  }

  lemma StepKeepsInv(s: System, e: Event)
    requires Inv(s)
    ensures Inv(Step(s, e))
  {
    match e
    case DeliverAck(n) => if n in s.acks { AckKeepsFlags(s, n); }
    case Enlist(_, _) => DecisionKeepsInv(s, e);
    case DecideCommit => DecisionKeepsInv(s, e);
    case DecideAbort => DecisionKeepsInv(s, e);
    case MarkCommitted => DecisionKeepsInv(s, e);
    case _ => EntryKeepsAcks(s, e);
  }

  lemma {:induction false} RunKeepsInv(cube: string, events: seq<Event>)
    ensures Inv(Run(cube, events))
  {
    if events != [] {
      RunKeepsInv(cube, events[..|events| - 1]);
      StepKeepsInv(Run(cube, events[..|events| - 1]), events[|events| - 1]);
    }
  }

  // ----- agreement

  // In every run in which some node committed, the nodes that ever rolled back
  // are exactly those a timeout rolled back.
  lemma SplitsAreTimeouts(cube: string, events: seq<Event>)
    requires Run(cube, events).committed != {}
    ensures Run(cube, events).rolledBack == Run(cube, events).expired
  {
    RunKeepsInv(cube, events);
  }

  predicate NoTimeouts(events: seq<Event>) {
    forall i :: 0 <= i < |events| ==> !events[i].Expire? && !(events[i].Prepare? && events[i].timedOut)
  }

  lemma {:induction false} NoneExpired(cube: string, events: seq<Event>)
    requires NoTimeouts(events)
    ensures Run(cube, events).expired == {}
  {
    if events != [] { NoneExpired(cube, events[..|events| - 1]); }
  }

  // Without timeouts no node ever commits in a run in which another rolls back.
  lemma Agreement(cube: string, events: seq<Event>)
    requires NoTimeouts(events)
    ensures Run(cube, events).committed == {} || Run(cube, events).rolledBack == {}
  {
    NoneExpired(cube, events);
    RunKeepsInv(cube, events);
  }

  // ----- completion

  function DeliverAll(s: System, order: seq<string>): System {
    if order == [] then s else Step(DeliverAll(s, order[..|order| - 1]), DeliverDecision(order[|order| - 1]))
  }

  lemma {:induction false} DeliverAllKeeps(s: System, order: seq<string>)
    requires Inv(s) && Committing(s)
    ensures var r := DeliverAll(s, order);
      && Inv(r) && r.decision == s.decision && r.expired == s.expired && r.acks == s.acks && s.committed <= r.committed
      && forall n :: n in order && n in s.decision.value.targets && n !in s.expired ==> n in r.committed
  {
    if order != [] {
      var k := |order| - 1;
      var mid := DeliverAll(s, order[..k]);
      DeliverAllKeeps(s, order[..k]);
      StepKeepsInv(mid, DeliverDecision(order[k]));
      assert order[k] in mid.acks ==> Kept(mid, order[k]);
      assert forall n :: n in order <==> n in order[..k] || n == order[k];
    }
  }

  // From every reachable state in which commit was decided, delivering the
  // decision to the targets, in any order and any number of times, commits
  // every one of them that did not time out: no node can refuse.
  lemma CommitCompletes(cube: string, events: seq<Event>, order: seq<string>)
    requires Committing(Run(cube, events))
    ensures var s, r := Run(cube, events), DeliverAll(Run(cube, events), order);
      forall n :: n in order && n in s.decision.value.targets && n !in s.expired ==> n in r.committed
  {
    RunKeepsInv(cube, events);
    DeliverAllKeeps(Run(cube, events), order);
  }

  lemma {:induction false} AbortDelivered(s: System, order: seq<string>)
    requires Inv(s) && Aborting(s)
    ensures var r := DeliverAll(s, order);
      && Inv(r) && r.decision == s.decision && r.nodes.Keys == s.nodes.Keys && s.rolledBack <= r.rolledBack
      && forall n :: n in order && n in s.decision.value.targets && n in s.nodes ==>
           r.nodes[n].state == StorageTx.RolledBack && n in r.rolledBack
  {
    if order != [] {
      var k := |order| - 1;
      var mid := DeliverAll(s, order[..k]);
      AbortDelivered(s, order[..k]);
      StepKeepsInv(mid, DeliverDecision(order[k]));
      assert forall n :: n in order <==> n in order[..k] || n == order[k];
    }
  }

  // From every reachable state in which abort was decided, delivering the
  // decision, in any order and any number of times, rolls back every target it
  // reaches that has an entry: none stays open and none has committed.
  lemma AbortCompletes(cube: string, events: seq<Event>, order: seq<string>)
    requires Aborting(Run(cube, events))
    ensures var s, r := Run(cube, events), DeliverAll(Run(cube, events), order);
      && r.nodes.Keys == s.nodes.Keys && r.committed == {}
      && forall n :: n in order && n in s.decision.value.targets && n in s.nodes ==>
           r.nodes[n].state == StorageTx.RolledBack && n in r.rolledBack
  {
    RunKeepsInv(cube, events);
    AbortDelivered(Run(cube, events), order);
  }

  // ----- where the code allows more than this driver does

  lemma RunMore(cube: string, events: seq<Event>, e: Event)
    ensures Run(cube, events + [e]) == Step(Run(cube, events), e)
  {
    assert (events + [e])[..|events|] == events;
  }

  // From every reachable state in which commit was decided, one timeout at a
  // target that has only prepared splits it from every other live target.
  lemma TimeoutSplits(cube: string, events: seq<Event>, n: string, m: string)
    requires var s := Run(cube, events);
      && Committing(s) && n != m && n in s.decision.value.targets && n !in s.expired
      && m in s.nodes && s.nodes[m].state == StorageTx.Prepared
    ensures var r := Run(cube, events + [Expire(m)] + [DeliverDecision(n)]);
      n in r.committed && m in r.rolledBack
  {
    RunKeepsInv(cube, events);
    var more := events + [Expire(m)];
    RunMore(cube, events, Expire(m));
    RunMore(cube, more, DeliverDecision(n));
    StepKeepsInv(Run(cube, events), Expire(m));
    assert Kept(Run(cube, more), n);
  }

  // The events, and then one node from enlisting to its prepare.
  function AndJoins(events: seq<Event>, n: string): seq<Event> {
    events + [Enlist(n, "")] + [Write(n, "")] + [Prepare(n, 0, false)]
  }

  const PREPARED := StorageTx.SnTransaction(StorageTx.Prepared, [""], Some(0))

  lemma JoinSteps(s: System, n: string)
    requires s.tx.state == Coordinator.Active && n !in s.nodes
    ensures var r := Step(Step(Step(s, Enlist(n, "")), Write(n, "")), Prepare(n, 0, false));
      && r.tx == s.tx.(participants := s.tx.participants + [Coordinator.Participant(n, "", false)])
      && r.nodes == s.nodes[n := PREPARED] && r.acks == s.acks + {n} && r.expired == s.expired && r.decision == s.decision
  {
    var none: seq<string> := [];
    assert none + [""] == [""];
    assert StorageTx.Apply(StorageTx.NEW, StorageTx.DoAddTablet("")) == StorageTx.SnTransaction(StorageTx.Active, [""], None);
  }

  lemma RunJoins(cube: string, events: seq<Event>, n: string)
    requires Run(cube, events).tx.state == Coordinator.Active && n !in Run(cube, events).nodes
    ensures var s, r := Run(cube, events), Run(cube, AndJoins(events, n));
      && r.tx == s.tx.(participants := s.tx.participants + [Coordinator.Participant(n, "", false)])
      && r.nodes == s.nodes[n := PREPARED] && r.acks == s.acks + {n} && r.expired == s.expired && r.decision == s.decision
  {
    RunMore(cube, events, Enlist(n, ""));
    RunMore(cube, events + [Enlist(n, "")], Write(n, ""));
    RunMore(cube, events + [Enlist(n, "")] + [Write(n, "")], Prepare(n, 0, false));
    JoinSteps(Run(cube, events), n);
  }

  function BothDecided(n: string, m: string): seq<Event> {
    AndJoins(AndJoins([], n), m) + [DeliverAck(n)] + [DeliverAck(m)] + [DecideCommit]
  }

  lemma BothJoined(cube: string, n: string, m: string)
    requires n != m
    ensures var s := Run(cube, AndJoins(AndJoins([], n), m));
      && s.tx.state == Coordinator.Active && s.decision.None? && s.expired == {} && s.acks == {n, m}
      && s.tx.participants == [Coordinator.Participant(n, "", false), Coordinator.Participant(m, "", false)]
      && m in s.nodes && s.nodes[m] == PREPARED
  {
    RunJoins(cube, [], n);
    RunJoins(cube, AndJoins([], n), m);
  }

  // Such states are reached: the decision to commit, with both nodes prepared.
  lemma SplitIsReachable(cube: string, n: string, m: string)
    requires n != m
    ensures var s := Run(cube, BothDecided(n, m));
      && Committing(s) && n in s.decision.value.targets && n !in s.expired
      && m in s.nodes && s.nodes[m].state == StorageTx.Prepared
  {
    var joined := AndJoins(AndJoins([], n), m);
    BothJoined(cube, n, m);
    RunMore(cube, joined, DeliverAck(n));
    RunMore(cube, joined + [DeliverAck(n)], DeliverAck(m));
    RunMore(cube, joined + [DeliverAck(n)] + [DeliverAck(m)], DecideCommit);
    BothAcked(n, m);
    var acked := Run(cube, joined + [DeliverAck(n)] + [DeliverAck(m)]);
    assert acked.tx.participants[0].node == n;
  }

  lemma BothAcked(n: string, m: string)
    requires n != m
    ensures var ps := [Coordinator.Participant(n, "", false), Coordinator.Participant(m, "", false)];
      && Coordinator.MarkFirst(ps, n) == [Coordinator.Participant(n, "", true), Coordinator.Participant(m, "", false)]
      && Coordinator.MarkFirst(Coordinator.MarkFirst(ps, n), m) == [Coordinator.Participant(n, "", true), Coordinator.Participant(m, "", true)]
  {
    var ps := [Coordinator.Participant(n, "", false), Coordinator.Participant(m, "", false)];
    var qs := Coordinator.MarkFirst(ps, n);
    assert qs == [Coordinator.Participant(n, "", true), Coordinator.Participant(m, "", false)];
    assert qs[1..] == [Coordinator.Participant(m, "", false)];
  }

  lemma {:induction false} DeliveredExactly(s: System, order: seq<string>, n: string)
    requires Committing(s)
    ensures var r := DeliverAll(s, order);
      && r.decision == s.decision && r.nodes.Keys == s.nodes.Keys
      && (n in s.nodes ==> Holds(r.nodes[n]) == Holds(s.nodes[n]))
      && (n in r.committed <==>
            n in s.committed || (n in order && n in s.decision.value.targets && n in s.nodes && Holds(s.nodes[n])))
  {
    if order != [] {
      var k := |order| - 1;
      DeliveredExactly(s, order[..k], n);
      assert n in order <==> n in order[..k] || n == order[k];
    }
  }

  // The coordinator hands out the commit list of an active transaction too.
  // Sending that decision commits all its targets if and only if every target
  // had committed or prepared.
  lemma CommitNeedsPrepared(s: System, order: seq<string>)
    requires Committing(s) && forall n :: n in s.decision.value.targets ==> n in order
    ensures var targets := s.decision.value.targets;
      targets <= DeliverAll(s, order).committed <==>
      forall n :: n in targets ==> n in s.committed || (n in s.nodes && Holds(s.nodes[n]))
  {
    var targets, r := s.decision.value.targets, DeliverAll(s, order);
    forall n | n in targets
      ensures n in r.committed <==> n in s.committed || (n in s.nodes && Holds(s.nodes[n]))
    {
      DeliveredExactly(s, order, n);
    }
  }

  // The commit list as the coordinator hands it out, whatever its state.
  function CommitListSent(s: System): System {
    s.(decision := Some(Decision(true, Targets(s.tx))))
  }

  lemma ListRefused(s: System, n: string, order: seq<string>)
    requires n in s.nodes && !Holds(s.nodes[n]) && n !in s.committed
    ensures n !in DeliverAll(CommitListSent(s), order).committed
  {
    DeliveredExactly(CommitListSent(s), order, n);
  }

  lemma EnlistsAndWrites(s: System, n: string, endpoint: string, tablet: string)
    requires s.tx.state == Coordinator.Active && n !in s.nodes
    ensures var r := Step(Step(s, Enlist(n, endpoint)), Write(n, tablet));
      && r.tx.state == Coordinator.Active && n in Targets(r.tx) && r.committed == s.committed
      && n in r.nodes && !Holds(r.nodes[n])
  {
    var r := Step(Step(s, Enlist(n, endpoint)), Write(n, tablet));
    assert r.tx.participants[|s.tx.participants|].node == n;
  }

  // An active transaction does not ensure that: any run of one is continued by
  // a node that enlists and writes, and never commits on the list.
  lemma ActiveListRefused(cube: string, events: seq<Event>, n: string, endpoint: string, tablet: string, order: seq<string>)
    requires var s := Run(cube, events);
      s.tx.state == Coordinator.Active && n !in s.nodes && n !in s.committed
    ensures var r := Run(cube, events + [Enlist(n, endpoint)] + [Write(n, tablet)]);
      && r.tx.state == Coordinator.Active && n in Targets(r.tx)
      && n !in DeliverAll(CommitListSent(r), order).committed
  {
    RunMore(cube, events, Enlist(n, endpoint));
    RunMore(cube, events + [Enlist(n, endpoint)], Write(n, tablet));
    EnlistsAndWrites(Run(cube, events), n, endpoint, tablet);
    ListRefused(Run(cube, events + [Enlist(n, endpoint)] + [Write(n, tablet)]), n, order);
  }
}
