// The storage node's side of two-phase commit: one entry per transaction.
module StorageTx {
  import opened Common

  datatype SnState = Active | Prepared | Committed | RolledBack

  datatype SnTransaction = SnTransaction(state: SnState, tablets: seq<string>, prepareLsn: Option<nat>)

  datatype Reply<+T> = Ok(value: T) | NotFound | WrongState(state: SnState) | TimedOut

  predicate Open(s: SnState) {
    s == Active || s == Prepared
  }

  // ----- one transaction

  const NEW := SnTransaction(Active, [], None)

  function WithTablet(tx: SnTransaction, tablet: string): SnTransaction {
    if tablet in tx.tablets then tx else tx.(tablets := tx.tablets + [tablet])
  }

  function Prepare(tx: SnTransaction, lsn: nat, timedOut: bool): SnTransaction {
    if tx.state != Active then tx
    else if timedOut then tx.(state := RolledBack)
    else tx.(state := Prepared, prepareLsn := Some(lsn))
  }

  function Commit(tx: SnTransaction): SnTransaction {
    if tx.state == Prepared then tx.(state := Committed) else tx
  }

  function Rollback(tx: SnTransaction): SnTransaction {
    if tx.state == Committed then tx else tx.(state := RolledBack)
  }

  datatype Op =
    | DoAddTablet(tablet: string)
    | DoPrepare(lsn: nat, timedOut: bool)
    | DoCommit
    | DoRollback

  function Apply(tx: SnTransaction, op: Op): SnTransaction {
    match op
    case DoAddTablet(t) => WithTablet(tx, t)
    case DoPrepare(lsn, timedOut) => Prepare(tx, lsn, timedOut)
    case DoCommit => Commit(tx)
    case DoRollback => Rollback(tx)
  }

  function After(ops: seq<Op>): SnTransaction {
    if ops == [] then NEW else Apply(After(ops[..|ops| - 1]), ops[|ops| - 1])
  }

  // ----- every run

  // The run prepared the transaction with `lsn` by its step `k`.
  ghost predicate PreparedBy(ops: seq<Op>, k: nat, lsn: nat) {
    k < |ops| && ops[k] == DoPrepare(lsn, false) && After(ops[..k]).state == Active
  }

  lemma {:induction false} LsnFromPrepare(ops: seq<Op>)
    ensures var tx := After(ops);
      && (tx.prepareLsn.Some? ==> tx.state != Active && exists k :: PreparedBy(ops, k, tx.prepareLsn.value))
      && (tx.state == Prepared || tx.state == Committed ==> tx.prepareLsn.Some?)
  {
    if ops != [] {
      var n := |ops| - 1;
      LsnFromPrepare(ops[..n]);
      var before, tx := After(ops[..n]), After(ops);
      if before.prepareLsn.Some? {
        var k: nat :| PreparedBy(ops[..n], k, before.prepareLsn.value);
        assert ops[..n][..k] == ops[..k];
        assert PreparedBy(ops, k, tx.prepareLsn.value);
      } else if tx.prepareLsn.Some? {
        assert PreparedBy(ops, n, tx.prepareLsn.value);
      }
    }
  }

  // Committed needs a prepare that succeeded while the entry was active, and
  // its log position is the one recorded.
  lemma CommittedWasPrepared(ops: seq<Op>)
    requires After(ops).state == Committed
    ensures After(ops).prepareLsn.Some? && exists k :: PreparedBy(ops, k, After(ops).prepareLsn.value)
  {
    LsnFromPrepare(ops);
  }

  // Committed and RolledBack are never left, and the recorded log position
  // never changes once it is set. Tablets may still be added.
  lemma {:induction false} Absorbing(ops: seq<Op>, k: nat)
    requires k <= |ops|
    ensures var past, now := After(ops[..k]), After(ops);
      && (!Open(past.state) ==> now.state == past.state)
      && (past.state != Active ==> now.prepareLsn == past.prepareLsn)
      && past.tablets <= now.tablets
    decreases |ops|
  {
    if k == |ops| {
      assert ops[..k] == ops;
    } else {
      var n := |ops| - 1;
      assert ops[..n][..k] == ops[..k];
      Absorbing(ops[..n], k);
      if After(ops[..k]).state != Active { LeavesActiveOnce(ops[..n], k); }
    }
  }

  lemma {:induction false} LeavesActiveOnce(ops: seq<Op>, k: nat)
    requires k <= |ops| && After(ops[..k]).state != Active
    ensures After(ops).state != Active
    decreases |ops|
  {
    if k == |ops| {
      assert ops[..k] == ops;
    } else {
      var n := |ops| - 1;
      assert ops[..n][..k] == ops[..k];
      LeavesActiveOnce(ops[..n], k);
    }
  }

  // ----- the state after a run, in terms of its operations alone

  predicate Settles(op: Op) {
    op.DoPrepare? || op.DoRollback?
  }

  predicate Decides(op: Op) {
    op.DoCommit? || op.DoRollback?
  }

  // Without a prepare or a rollback the entry stays active.
  lemma {:induction false} StaysActive(ops: seq<Op>)
    requires forall i :: 0 <= i < |ops| ==> !Settles(ops[i])
    ensures After(ops).state == Active
  {
    if ops != [] { StaysActive(ops[..|ops| - 1]); }
  }

  lemma {:induction false} StaysPrepared(ops: seq<Op>, j: nat)
    requires 0 < j <= |ops| && After(ops[..j]).state == Prepared && forall i :: j <= i < |ops| ==> !Decides(ops[i])
    ensures After(ops).state == Prepared
  {
    var n := |ops| - 1;
    if j == |ops| {
      assert ops[..j] == ops;
    } else {
      assert ops[..n][..j] == ops[..j];
      StaysPrepared(ops[..n], j);
    }
  }

  lemma AfterNext(ops: seq<Op>, k: nat)
    requires k < |ops|
    ensures After(ops[..k + 1]) == Apply(After(ops[..k]), ops[k])
  {
    assert ops[..k + 1][..k] == ops[..k];
  }

  lemma SettledAt(ops: seq<Op>, j: nat)
    requires j < |ops| && Settles(ops[j]) && forall i :: 0 <= i < j ==> !Settles(ops[i])
    ensures After(ops[..j + 1]).state == if ops[j].DoRollback? || ops[j].timedOut then RolledBack else Prepared
  {
    StaysActive(ops[..j]);
    AfterNext(ops, j);
  }

  lemma PreparedUntil(ops: seq<Op>, j: nat, k: nat)
    requires 0 < j <= k <= |ops| && After(ops[..j]).state == Prepared && forall i :: j <= i < k ==> !Decides(ops[i])
    ensures After(ops[..k]).state == Prepared
  {
    assert ops[..k][..j] == ops[..j];
    StaysPrepared(ops[..k], j);
  }

  lemma StaysFinal(ops: seq<Op>, k: nat)
    requires k <= |ops| && !Open(After(ops[..k]).state)
    ensures After(ops).state == After(ops[..k]).state
  {
    Absorbing(ops, k);
  }

  lemma DecidedAt(ops: seq<Op>, j: nat, k: nat)
    requires 0 < j <= k <= |ops| && After(ops[..j]).state == Prepared
    requires (forall i :: j <= i < k ==> !Decides(ops[i])) && (k < |ops| ==> Decides(ops[k]))
    ensures After(ops).state == if k == |ops| then Prepared else if ops[k].DoCommit? then Committed else RolledBack
  {
    PreparedUntil(ops, j, k);
    if k == |ops| {
      assert ops[..k] == ops;
    } else {
      AfterNext(ops, k);
      StaysFinal(ops, k + 1);
    }
  }

  // Else the first prepare or rollback, at `j`, settles it: a rollback or a
  // prepare that timed out rolls it back for good, and a prepare in time leaves
  // it to the first commit or rollback behind it, at `k`.
  lemma StateExact(ops: seq<Op>, j: nat, k: nat)
    requires j < k <= |ops| && Settles(ops[j]) && forall i :: 0 <= i < j ==> !Settles(ops[i])
    requires (forall i :: j < i < k ==> !Decides(ops[i])) && (k < |ops| ==> Decides(ops[k]))
    ensures After(ops).state ==
      if ops[j].DoRollback? || ops[j].timedOut then RolledBack
      else if k == |ops| then Prepared
      else if ops[k].DoCommit? then Committed
      else RolledBack
  {
    SettledAt(ops, j);
    if ops[j].DoRollback? || ops[j].timedOut {
      StaysFinal(ops, j + 1);
    } else {
      DecidedAt(ops, j + 1, k);
    }
  }

  // A rollback after any run succeeds unless the run left the entry committed.
  lemma RollbackExact(ops: seq<Op>)
    ensures After(ops + [DoRollback]).state == RolledBack <==> After(ops).state != Committed
    ensures After(ops + [DoRollback]).state == Committed <==> After(ops).state == Committed
  {
    assert (ops + [DoRollback])[..|ops|] == ops;
  }

  // The entry lists the tablets that were added, each once.
  lemma {:induction false} TabletsExact(ops: seq<Op>, tablet: string)
    ensures var tablets := After(ops).tablets;
      && (tablet in tablets <==> DoAddTablet(tablet) in ops)
      && forall i, j :: 0 <= i < j < |tablets| ==> tablets[i] != tablets[j]
  {
    if ops != [] {
      var n := |ops| - 1;
      TabletsExact(ops[..n], tablet);
      assert ops == ops[..n] + [ops[n]];
    }
  }

  // ----- the manager

  class SnTransactionManager {
    var transactions: map<nat, SnTransaction>

    constructor ()
      ensures transactions == map[]
    {
      transactions := map[];
    }

    method Register(id: nat)
      modifies this
      ensures transactions == if id in old(transactions) then old(transactions) else old(transactions)[id := NEW]
    {
      if id !in transactions { transactions := transactions[id := SnTransaction(Active, [], None)]; }
    }

    method AddTablet(id: nat, tablet: string) returns (r: Reply<()>)
      modifies this
      ensures id !in old(transactions) ==> r == NotFound && transactions == old(transactions)
      ensures id in old(transactions) ==> r == Ok(()) && transactions == old(transactions)[id := Apply(old(transactions)[id], DoAddTablet(tablet))]
    {
      if id !in transactions { return NotFound; }
      var tx := transactions[id];
      if tablet !in tx.tablets { transactions := transactions[id := tx.(tablets := tx.tablets + [tablet])]; }
      r := Ok(());
    }

    method PrepareTx(id: nat, lsn: nat, timedOut: bool) returns (r: Reply<()>)
      modifies this
      ensures id !in old(transactions) ==> r == NotFound && transactions == old(transactions)
      ensures id in old(transactions) ==>
        && transactions == old(transactions)[id := Apply(old(transactions)[id], DoPrepare(lsn, timedOut))]
        && r == (if old(transactions)[id].state != Active then WrongState(old(transactions)[id].state)
                 else if timedOut then TimedOut
                 else Ok(()))
    {
      if id !in transactions { return NotFound; }
      var tx := transactions[id];
      if tx.state != Active { return WrongState(tx.state); }
      if timedOut {
        transactions := transactions[id := tx.(state := RolledBack)];
        return TimedOut;
      }
      transactions := transactions[id := tx.(state := Prepared, prepareLsn := Some(lsn))];
      r := Ok(());
    }

    // Committing twice is allowed and changes nothing the second time.
    method CommitTx(id: nat) returns (r: Reply<seq<string>>)
      modifies this
      ensures id !in old(transactions) ==> r == NotFound && transactions == old(transactions)
      ensures id in old(transactions) ==>
        && transactions == old(transactions)[id := Apply(old(transactions)[id], DoCommit)]
        && r == (if old(transactions)[id].state == Prepared || old(transactions)[id].state == Committed
                 then Ok(old(transactions)[id].tablets)
                 else WrongState(old(transactions)[id].state))
    {
      if id !in transactions { return NotFound; }
      var tx := transactions[id];
      if tx.state == Committed { return Ok(tx.tablets); }
      if tx.state != Prepared { return WrongState(tx.state); }
      transactions := transactions[id := tx.(state := Committed)];
      r := Ok(tx.tablets);
    }

    method RollbackTx(id: nat) returns (r: Reply<seq<string>>)
      modifies this
      ensures id !in old(transactions) ==> r == NotFound && transactions == old(transactions)
      ensures id in old(transactions) ==>
        && transactions == old(transactions)[id := Apply(old(transactions)[id], DoRollback)]
        && r == (if old(transactions)[id].state == Committed then WrongState(Committed) else Ok(old(transactions)[id].tablets))
    {
      if id !in transactions { return NotFound; }
      var tx := transactions[id];
      if tx.state == Committed { return WrongState(Committed); }
      transactions := transactions[id := tx.(state := RolledBack)];
      r := Ok(tx.tablets);
    }

    // Rolls back the open entries that expired and drops every entry that is
    // not open: finished ones are forgotten, and so are the expired.
    method CleanupTimedOut(expired: nat -> bool) returns (aborted: set<nat>)
      modifies this
      ensures aborted == set id | id in old(transactions) && Open(old(transactions)[id].state) && expired(id)
      ensures transactions == map id | id in old(transactions) && Open(old(transactions)[id].state) && id !in aborted :: old(transactions)[id]
    {
      var txs, todo := transactions, transactions.Keys;
      aborted := {};
      while todo != {}
        invariant todo <= txs.Keys == transactions.Keys
        invariant aborted == set id | id in transactions && id !in todo && Open(transactions[id].state) && expired(id)
        invariant forall id :: id in txs ==> txs[id] == if id in aborted then transactions[id].(state := RolledBack) else transactions[id]
        decreases todo
      {
        var id :| id in todo;
        if Open(txs[id].state) && expired(id) {
          txs := txs[id := txs[id].(state := RolledBack)];
          aborted := aborted + {id};
        }
        todo := todo - {id};
      }
      transactions := map id | id in txs && Open(txs[id].state) :: txs[id];
    }
  }
}
