// The query node's two-phase-commit bookkeeping: participants, their
// acknowledgements, and the transaction's state.
module Coordinator {

  datatype TxState = Active | Prepared | Committed | RolledBack | Aborted

  datatype Participant = Participant(node: string, endpoint: string, prepared: bool)

  datatype Transaction = Transaction(state: TxState, participants: seq<Participant>, cube: string)

  datatype Reply<+T> = Ok(value: T) | NotFound | NotActive | CannotCommit(state: TxState) | TimedOut

  predicate Open(s: TxState) {
    s == Active || s == Prepared
  }

  // ----- acknowledgements

  // Sets the flag of the first entry of the node; later entries are not looked
  // at.
  function MarkFirst(ps: seq<Participant>, node: string): (r: seq<Participant>)
    ensures |r| == |ps|
  {
    if ps == [] then []
    else if ps[0].node == node then [ps[0].(prepared := true)] + ps[1..]
    else [ps[0]] + MarkFirst(ps[1..], node)
  }

  predicate AllPrepared(ps: seq<Participant>) {
    forall i :: 0 <= i < |ps| ==> ps[i].prepared
  }

  predicate IsFirst(ps: seq<Participant>, i: nat)
    requires i < |ps|
  {
    forall j :: 0 <= j < i ==> ps[j].node != ps[i].node
  }

  ghost predicate SameNodes(a: seq<Participant>, b: seq<Participant>) {
    |a| == |b| && forall i :: 0 <= i < |a| ==> a[i].node == b[i].node && a[i].endpoint == b[i].endpoint
  }

  lemma {:induction false} MarkFirstExact(ps: seq<Participant>, node: string)
    ensures var r := MarkFirst(ps, node);
      SameNodes(ps, r) && forall i :: 0 <= i < |ps| ==> (r[i].prepared <==> ps[i].prepared || (ps[i].node == node && IsFirst(ps, i)))
  {
    var r := MarkFirst(ps, node);
    if ps != [] {
      var tail := ps[1..];
      MarkFirstExact(tail, node);
      forall i | 0 <= i < |ps|
        ensures r[i].node == ps[i].node && r[i].endpoint == ps[i].endpoint
        ensures r[i].prepared <==> ps[i].prepared || (ps[i].node == node && IsFirst(ps, i))
      {
        if i > 0 && ps[0].node == node {
          assert IsFirst(ps, i) ==> ps[0].node != ps[i].node;
        } else if i > 0 {
          FirstInTail(ps, i);
        }
      }
    }
  }

  lemma {:induction false} MarkFirstAfter(ps: seq<Participant>, i: nat, node: string)
    requires i <= |ps| && forall j :: 0 <= j < i ==> ps[j].node != node
    ensures MarkFirst(ps, node) == ps[..i] + MarkFirst(ps[i..], node)
  {
    if i == 0 {
      assert ps[0..] == ps;
    } else {
      MarkFirstAfter(ps[1..], i - 1, node);
      assert ps[1..][i - 1..] == ps[i..] && ps[..i] == [ps[0]] + ps[1..][..i - 1];
    }
  }

  method MarkPrepared(participants: seq<Participant>, node: string) returns (ps: seq<Participant>)
    ensures ps == MarkFirst(participants, node)
  {
    ps := participants;
    var i := 0;
    while i < |ps|
      invariant 0 <= i <= |ps| && ps == participants
      invariant forall j :: 0 <= j < i ==> ps[j].node != node
    {
      if ps[i].node == node {
        MarkFirstAfter(participants, i, node);
        ps := ps[i := ps[i].(prepared := true)];
        assert participants[i..][1..] == ps[i + 1..];
        return;
      }
      i := i + 1;
    }
    MarkFirstAfter(participants, i, node);
  }

  lemma FirstInTail(ps: seq<Participant>, i: nat)
    requires 0 < i < |ps|
    ensures IsFirst(ps, i) <==> ps[0].node != ps[i].node && IsFirst(ps[1..], i - 1)
  {
    if ps[0].node != ps[i].node && IsFirst(ps[1..], i - 1) {
      forall j | 0 <= j < i ensures ps[j].node != ps[i].node {
        if j > 0 { assert ps[1..][j - 1].node != ps[1..][i - 1].node; }
      }
    }
    if IsFirst(ps, i) {
      forall j | 0 <= j < i - 1 ensures ps[1..][j].node != ps[1..][i - 1].node {
        assert ps[j + 1].node != ps[i].node;
      }
    }
  }

  // ----- one transaction

  function Register(tx: Transaction, node: string, endpoint: string): Transaction {
    if tx.state == Active then tx.(participants := tx.participants + [Participant(node, endpoint, false)]) else tx
  }

  function Ack(tx: Transaction, node: string): Transaction {
    var ps := MarkFirst(tx.participants, node);
    Transaction(if AllPrepared(ps) && tx.state == Active then Prepared else tx.state, ps, tx.cube)
  }

  function BeginCommit(tx: Transaction, timedOut: bool): Transaction {
    if Open(tx.state) && timedOut then tx.(state := Aborted) else tx
  }

  datatype Op =
    | DoRegister(node: string, endpoint: string)
    | DoAck(node: string)
    | DoPrepareCommit(timedOut: bool)
    | DoMarkCommitted
    | DoRollback

  function Apply(tx: Transaction, op: Op): Transaction {
    match op
    case DoRegister(n, e) => Register(tx, n, e)
    case DoAck(n) => Ack(tx, n)
    case DoPrepareCommit(t) => BeginCommit(tx, t)
    case DoMarkCommitted => tx.(state := Committed)
    case DoRollback => tx.(state := RolledBack)
  }

  function NewTransaction(cube: string): Transaction {
    Transaction(Active, [], cube)
  }

  function After(cube: string, ops: seq<Op>): Transaction {
    if ops == [] then NewTransaction(cube) else Apply(After(cube, ops[..|ops| - 1]), ops[|ops| - 1])
  }

  // An acknowledgement of entry `i` arrived: it is the first entry of its node,
  // and the node acknowledged after it was registered.
  ghost predicate AckedFor(cube: string, ops: seq<Op>, i: nat) {
    var ps := After(cube, ops).participants;
    i < |ps| && IsFirst(ps, i) && exists k :: 0 <= k < |ops| && ops[k] == DoAck(ps[i].node) && i < |After(cube, ops[..k]).participants|
  }

  lemma {:induction false} FlagsMeanAcks(cube: string, ops: seq<Op>, i: nat)
    requires i < |After(cube, ops).participants|
    ensures After(cube, ops).participants[i].prepared ==> AckedFor(cube, ops, i)
  {
    if ops != [] {
      var n := |ops| - 1;
      var before, after := After(cube, ops[..n]), After(cube, ops);
      if ops[n].DoAck? { MarkFirstExact(before.participants, ops[n].node); }
      if after.participants[i].prepared {
        assert i < |before.participants| && after.participants[i].node == before.participants[i].node;
        StillFirst(before.participants, after.participants, i);
        if before.participants[i].prepared {
          FlagsMeanAcks(cube, ops[..n], i);
          var k :| 0 <= k < n && ops[..n][k] == DoAck(before.participants[i].node) && i < |After(cube, ops[..n][..k]).participants|;
          assert ops[..n][..k] == ops[..k] && ops[k] == DoAck(after.participants[i].node);
        } else {
          assert ops[n] == DoAck(after.participants[i].node);
        }
      }
    }
  }

  lemma KeepsFlag(tx: Transaction, op: Op, i: nat)
    requires i < |tx.participants|
    ensures var r := Apply(tx, op).participants;
      && i < |r| && r[i].node == tx.participants[i].node && (tx.participants[i].prepared ==> r[i].prepared)
      && (op == DoAck(tx.participants[i].node) && IsFirst(tx.participants, i) ==> r[i].prepared)
      && (IsFirst(r, i) <==> IsFirst(tx.participants, i))
  {
    if op.DoAck? { MarkFirstExact(tx.participants, op.node); }
    StillFirst(tx.participants, Apply(tx, op).participants, i);
  }

  lemma {:induction false} AckSetsFlag(cube: string, ops: seq<Op>, i: nat, k: nat)
    requires i < |After(cube, ops).participants| && IsFirst(After(cube, ops).participants, i)
    requires k < |ops| && ops[k] == DoAck(After(cube, ops).participants[i].node) && i < |After(cube, ops[..k]).participants|
    ensures After(cube, ops).participants[i].prepared
    decreases |ops|
  {
    var n := |ops| - 1;
    if k == n {
      KeepsFlag(After(cube, ops[..n]), ops[n], i);
    } else {
      assert ops[..n][..k] == ops[..k];
      MoreParticipants(cube, ops[..n], k);
      KeepsFlag(After(cube, ops[..n]), ops[n], i);
      AckSetsFlag(cube, ops[..n], i, k);
    }
  }

  lemma {:induction false} MoreParticipants(cube: string, ops: seq<Op>, k: nat)
    requires k <= |ops|
    ensures |After(cube, ops[..k]).participants| <= |After(cube, ops).participants|
    decreases |ops|
  {
    if k == |ops| {
      assert ops[..k] == ops;
    } else {
      assert ops[..|ops| - 1][..k] == ops[..k];
      MoreParticipants(cube, ops[..|ops| - 1], k);
    }
  }

  // In every run an entry's flag is set if and only if the entry is the first
  // of its node and the node acknowledged after the entry was registered.
  lemma FlagsExact(cube: string, ops: seq<Op>, i: nat)
    requires i < |After(cube, ops).participants|
    ensures After(cube, ops).participants[i].prepared <==> AckedFor(cube, ops, i)
  {
    FlagsMeanAcks(cube, ops, i);
    if AckedFor(cube, ops, i) {
      var node := After(cube, ops).participants[i].node;
      var k :| 0 <= k < |ops| && ops[k] == DoAck(node) && i < |After(cube, ops[..k]).participants|;
      AckSetsFlag(cube, ops, i, k);
    }
  }

  // The nodes and endpoints registered, in order.
  function Registered(ops: seq<Op>): seq<(string, string)> {
    if ops == [] then []
    else
      var op := ops[|ops| - 1];
      Registered(ops[..|ops| - 1]) + if op.DoRegister? then [(op.node, op.endpoint)] else []
  }

  function Places(ps: seq<Participant>): (r: seq<(string, string)>)
    ensures |r| == |ps| && forall i :: 0 <= i < |ps| ==> r[i] == (ps[i].node, ps[i].endpoint)
  {
    seq(|ps|, i requires 0 <= i < |ps| => (ps[i].node, ps[i].endpoint))
  }

  // As long as a transaction is active its participants are all that registered.
  lemma {:induction false} ParticipantsExact(cube: string, ops: seq<Op>)
    requires After(cube, ops).state == Active
    ensures Places(After(cube, ops).participants) == Registered(ops)
  {
    if ops != [] {
      var n := |ops| - 1;
      var before := After(cube, ops[..n]);
      if before.state != Active { FrozenStep(before, ops[n]); }
      ParticipantsExact(cube, ops[..n]);
      if ops[n].DoAck? { MarkFirstExact(before.participants, ops[n].node); }
    }
  }

  // ----- the outcome

  predicate Concludes(op: Op) {
    op.DoMarkCommitted? || op.DoRollback?
  }

  // The coordinator's record of the outcome is that of the last call: a
  // rollback overwrites a commit and a commit a rollback.
  lemma {:induction false} LastCallWins(cube: string, ops: seq<Op>, k: nat)
    requires k < |ops| && Concludes(ops[k]) && forall i :: k < i < |ops| ==> !Concludes(ops[i])
    ensures After(cube, ops).state == if ops[k].DoMarkCommitted? then Committed else RolledBack
    decreases |ops|
  {
    if k < |ops| - 1 { LastCallWins(cube, ops[..|ops| - 1], k); }
  }

  ghost predicate TimedOutIn(ops: seq<Op>) {
    exists i :: 0 <= i < |ops| && ops[i] == DoPrepareCommit(true)
  }

  // An acknowledgement found every entry's flag set.
  ghost predicate CompletedIn(cube: string, ops: seq<Op>) {
    exists i :: 0 <= i < |ops| && ops[i].DoAck? && AllPrepared(After(cube, ops[..i + 1]).participants)
  }

  lemma TimedOutMore(ops: seq<Op>)
    requires ops != []
    ensures TimedOutIn(ops) <==> TimedOutIn(ops[..|ops| - 1]) || ops[|ops| - 1] == DoPrepareCommit(true)
  {
    var n := |ops| - 1;
    if TimedOutIn(ops[..n]) {
      var i :| 0 <= i < n && ops[..n][i] == DoPrepareCommit(true);
      assert ops[i] == DoPrepareCommit(true);
    }
    if i :| 0 <= i < |ops| && ops[i] == DoPrepareCommit(true) {
      assert i < n ==> ops[..n][i] == DoPrepareCommit(true);
    }
  }

  lemma CompletedMore(cube: string, ops: seq<Op>)
    requires ops != []
    ensures CompletedIn(cube, ops) <==>
      CompletedIn(cube, ops[..|ops| - 1]) || (ops[|ops| - 1].DoAck? && AllPrepared(After(cube, ops).participants))
  {
    var n := |ops| - 1;
    assert ops[..n + 1] == ops;
    forall i | 0 <= i < n ensures ops[..n][i] == ops[i] && ops[..n][..i + 1] == ops[..i + 1] {
    }
    if CompletedIn(cube, ops[..n]) {
      var i :| 0 <= i < n && ops[..n][i].DoAck? && AllPrepared(After(cube, ops[..n][..i + 1]).participants);
      assert ops[i].DoAck? && AllPrepared(After(cube, ops[..i + 1]).participants);
    }
    if CompletedIn(cube, ops) {
      var i :| 0 <= i < |ops| && ops[i].DoAck? && AllPrepared(After(cube, ops[..i + 1]).participants);
      assert i < n ==> ops[..n][i].DoAck? && AllPrepared(After(cube, ops[..n][..i + 1]).participants);
    }
  }

  // Before any such call a commit that timed out has aborted the transaction;
  // without one it is Prepared if and only if an acknowledgement completed it.
  lemma {:induction false} StateExact(cube: string, ops: seq<Op>)
    requires forall i :: 0 <= i < |ops| ==> !Concludes(ops[i])
    ensures After(cube, ops).state ==
      if TimedOutIn(ops) then Aborted else if CompletedIn(cube, ops) then Prepared else Active
  {
    if ops != [] {
      StateExact(cube, ops[..|ops| - 1]);
      TimedOutMore(ops);
      CompletedMore(cube, ops);
    }
  }

  lemma StillFirst(a: seq<Participant>, b: seq<Participant>, i: nat)
    requires i < |a| <= |b| && forall j :: 0 <= j < |a| ==> a[j].node == b[j].node
    ensures IsFirst(a, i) <==> IsFirst(b, i)
  {
  }

  lemma {:induction false} PreparedHasFlags(cube: string, ops: seq<Op>)
    ensures After(cube, ops).state == Prepared ==> AllPrepared(After(cube, ops).participants)
  {
    if ops != [] {
      var n := |ops| - 1;
      PreparedHasFlags(cube, ops[..n]);
      if ops[n].DoAck? { MarkFirstExact(After(cube, ops[..n]).participants, ops[n].node); }
    }
  }

  ghost predicate DistinctNodes(ps: seq<Participant>) {
    forall i :: 0 <= i < |ps| ==> IsFirst(ps, i)
  }

  // In every run that leaves a transaction Prepared, no node is registered
  // twice and every entry was acknowledged after it was registered.
  lemma PreparedMeansAllAcked(cube: string, ops: seq<Op>)
    requires After(cube, ops).state == Prepared
    ensures AllPrepared(After(cube, ops).participants) && DistinctNodes(After(cube, ops).participants)
    ensures forall i :: 0 <= i < |After(cube, ops).participants| ==> AckedFor(cube, ops, i)
  {
    PreparedHasFlags(cube, ops);
    var ps := After(cube, ops).participants;
    forall i | 0 <= i < |ps| ensures AckedFor(cube, ops, i) && IsFirst(ps, i) {
      FlagsMeanAcks(cube, ops, i);
    }
  }

  lemma FrozenStep(tx: Transaction, op: Op)
    requires tx.state != Active
    ensures Apply(tx, op).state != Active && SameNodes(tx.participants, Apply(tx, op).participants)
    ensures forall i :: 0 <= i < |tx.participants| && tx.participants[i].prepared ==> Apply(tx, op).participants[i].prepared
  {
    if op.DoAck? { MarkFirstExact(tx.participants, op.node); }
  }

  // Once a transaction has left Active it never returns, and its list of
  // participants is frozen: flags may still be set, nothing else changes.
  lemma {:induction false} Frozen(cube: string, ops: seq<Op>, k: nat)
    requires k <= |ops| && After(cube, ops[..k]).state != Active
    ensures After(cube, ops).state != Active
    ensures SameNodes(After(cube, ops[..k]).participants, After(cube, ops).participants)
    ensures forall i :: 0 <= i < |After(cube, ops).participants| && After(cube, ops[..k]).participants[i].prepared ==>
      After(cube, ops).participants[i].prepared
    decreases |ops|
  {
    if k == |ops| {
      assert ops[..k] == ops;
    } else {
      var n := |ops| - 1;
      assert ops[..n][..k] == ops[..k];
      Frozen(cube, ops[..n], k);
      FrozenStep(After(cube, ops[..n]), ops[n]);
    }
  }

  // ----- acknowledgements complete a transaction exactly when no node is
  // registered twice

  function AckAll(tx: Transaction, acks: seq<string>): Transaction
    decreases |acks|
  {
    if acks == [] then tx else AckAll(Ack(tx, acks[0]), acks[1..])
  }

  lemma {:induction false} AckAllExact(tx: Transaction, acks: seq<string>)
    ensures var ps, r := tx.participants, AckAll(tx, acks).participants;
      SameNodes(ps, r) && forall i :: 0 <= i < |ps| ==> (r[i].prepared <==> ps[i].prepared || (ps[i].node in acks && IsFirst(ps, i)))
    decreases |acks|
  {
    if acks != [] {
      var mid := Ack(tx, acks[0]);
      MarkFirstExact(tx.participants, acks[0]);
      AckAllExact(mid, acks[1..]);
      var ps, r := tx.participants, AckAll(tx, acks).participants;
      forall i | 0 <= i < |ps| ensures r[i].prepared <==> ps[i].prepared || (ps[i].node in acks && IsFirst(ps, i)) {
        StillFirst(ps, mid.participants, i);
        assert ps[i].node in acks <==> ps[i].node == acks[0] || ps[i].node in acks[1..];
      }
    }
  }

  lemma {:induction false} AckAllState(tx: Transaction, acks: seq<string>)
    requires tx.state == Active && acks != []
    ensures AckAll(tx, acks).state == if AllPrepared(AckAll(tx, acks).participants) then Prepared else Active
    decreases |acks|
  {
    var mid := Ack(tx, acks[0]);
    if |acks| > 1 {
      if mid.state == Active {
        AckAllState(mid, acks[1..]);
      } else {
        AckAllStays(mid, acks[1..]);
      }
    }
  }

  lemma {:induction false} AckAllStays(tx: Transaction, acks: seq<string>)
    requires tx.state == Prepared && AllPrepared(tx.participants)
    ensures AckAll(tx, acks).state == Prepared && AllPrepared(AckAll(tx, acks).participants)
    decreases |acks|
  {
    if acks != [] {
      MarkFirstExact(tx.participants, acks[0]);
      AckAllStays(Ack(tx, acks[0]), acks[1..]);
    }
  }

  // Acknowledgements bring an active transaction with no flags set to Prepared
  // if and only if no node is registered twice and every node acknowledged: a
  // node registered twice blocks its transaction for ever.
  lemma AcksCompleteExactly(tx: Transaction, acks: seq<string>)
    requires tx.state == Active && acks != []
    requires forall i :: 0 <= i < |tx.participants| ==> !tx.participants[i].prepared
    ensures AckAll(tx, acks).state == Prepared <==>
      DistinctNodes(tx.participants) && forall i :: 0 <= i < |tx.participants| ==> tx.participants[i].node in acks
  {
    AckAllExact(tx, acks);
    AckAllState(tx, acks);
    var ps, r := tx.participants, AckAll(tx, acks).participants;
    if DistinctNodes(ps) && forall i :: 0 <= i < |ps| ==> ps[i].node in acks {
      assert forall i :: 0 <= i < |ps| ==> IsFirst(ps, i) && r[i].prepared;
    }
    if AllPrepared(r) {
      forall i | 0 <= i < |ps| ensures IsFirst(ps, i) && ps[i].node in acks {
        assert r[i].prepared;
      }
    }
  }

  // ----- the manager

  function Surviving(txs: map<string, Transaction>, expired: string -> bool): map<string, Transaction> {
    map id | id in txs && Open(txs[id].state) && !expired(id) :: txs[id]
  }

  class TransactionManager {
    var transactions: map<string, Transaction>

    constructor ()
      ensures transactions == map[]
    {
      transactions := map[];
    }

    // `id` stands for the fresh identifier.
    method Begin(id: string, cube: string)
      requires id !in transactions
      modifies this
      ensures transactions == old(transactions)[id := NewTransaction(cube)]
    {
      transactions := transactions[id := Transaction(Active, [], cube)];
    }

    method RegisterParticipant(id: string, node: string, endpoint: string) returns (r: Reply<()>)
      modifies this
      ensures id !in old(transactions) ==> r == NotFound && transactions == old(transactions)
      ensures id in old(transactions) ==>
        && transactions == old(transactions)[id := Apply(old(transactions)[id], DoRegister(node, endpoint))]
        && r == if old(transactions)[id].state == Active then Ok(()) else NotActive
    {
      if id !in transactions { return NotFound; }
      var tx := transactions[id];
      if tx.state != Active { return NotActive; }
      transactions := transactions[id := tx.(participants := tx.participants + [Participant(node, endpoint, false)])];
      r := Ok(());
    }

    method ReceivePrepareAck(id: string, node: string) returns (r: Reply<bool>)
      modifies this
      ensures id !in old(transactions) ==> r == NotFound && transactions == old(transactions)
      ensures id in old(transactions) ==>
        && transactions == old(transactions)[id := Apply(old(transactions)[id], DoAck(node))]
        && r == Ok(AllPrepared(transactions[id].participants))
    {
      if id !in transactions { return NotFound; }
      var tx := transactions[id];
      var ps := MarkPrepared(tx.participants, node);
      var all := AllPrepared(ps);
      transactions := transactions[id := Transaction(if all && tx.state == Active then Prepared else tx.state, ps, tx.cube)];
      r := Ok(all);
    }

    // The participants to send the commit to.
    method PrepareCommit(id: string, timedOut: bool) returns (r: Reply<seq<Participant>>)
      modifies this
      ensures id !in old(transactions) ==> r == NotFound && transactions == old(transactions)
      ensures id in old(transactions) ==>
        && transactions == old(transactions)[id := Apply(old(transactions)[id], DoPrepareCommit(timedOut))]
        && r == (if !Open(old(transactions)[id].state) then CannotCommit(old(transactions)[id].state)
                 else if timedOut then TimedOut
                 else Ok(transactions[id].participants))
    {
      if id !in transactions { return NotFound; }
      var tx := transactions[id];
      if !Open(tx.state) { return CannotCommit(tx.state); }
      if timedOut {
        transactions := transactions[id := tx.(state := Aborted)];
        return TimedOut;
      }
      r := Ok(tx.participants);
    }

    method MarkCommitted(id: string) returns (r: Reply<()>)
      modifies this
      ensures id !in old(transactions) ==> r == NotFound && transactions == old(transactions)
      ensures id in old(transactions) ==> r == Ok(()) && transactions == old(transactions)[id := Apply(old(transactions)[id], DoMarkCommitted)]
    {
      if id !in transactions { return NotFound; }
      transactions := transactions[id := transactions[id].(state := Committed)];
      r := Ok(());
    }

    method Rollback(id: string) returns (r: Reply<seq<Participant>>)
      modifies this
      ensures id !in old(transactions) ==> r == NotFound && transactions == old(transactions)
      ensures id in old(transactions) ==>
        && transactions == old(transactions)[id := Apply(old(transactions)[id], DoRollback)]
        && r == Ok(old(transactions)[id].participants)
    {
      if id !in transactions { return NotFound; }
      r := Ok(transactions[id].participants);
      transactions := transactions[id := transactions[id].(state := RolledBack)];
    }

    // Aborts the open transactions that expired, then drops every one that is
    // not open: what is left is exactly the open ones that did not expire.
    method CleanupTimedOut(expired: string -> bool) returns (aborted: nat)
      modifies this
      ensures transactions == Surviving(old(transactions), expired)
      ensures aborted == |set id | id in old(transactions) && Open(old(transactions)[id].state) && expired(id)|
    {
      var txs, todo := transactions, transactions.Keys;
      ghost var hit: set<string> := {};
      aborted := 0;
      while todo != {}
        invariant todo <= txs.Keys == transactions.Keys && aborted == |hit|
        invariant hit == set id | id in transactions && id !in todo && Open(transactions[id].state) && expired(id)
        invariant forall id :: id in txs ==> txs[id] == if id in hit then transactions[id].(state := Aborted) else transactions[id]
        decreases todo
      {
        var id :| id in todo;
        if Open(txs[id].state) && expired(id) {
          txs := txs[id := txs[id].(state := Aborted)];
          aborted := aborted + 1;
          hit := hit + {id};
        }
        todo := todo - {id};
      }
      assert hit == set id | id in transactions && Open(transactions[id].state) && expired(id);
      transactions := map id | id in txs && Open(txs[id].state) :: txs[id];
    }
  }
}
