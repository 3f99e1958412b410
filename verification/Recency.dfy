// The order a pool keeps its blocks in: that of their last use, over every run
// of operations.
module Recency {
  import Common
  import opened BlockCache

  // ----- one operation

  function OtherThan(k: BlockKey): Entry -> bool {
    (e: Entry) => e.key != k
  }

  lemma {:induction false} WithoutIsFilter(es: Entries, i: nat)
    requires DistinctKeys(es) && i < |es|
    ensures Without(es, i) == Common.Filter(es, OtherThan(es[i].key))
  {
    var keep, tail := OtherThan(es[i].key), es[1..];
    if i == 0 {
      forall e | e in tail ensures keep(e) {
        var j :| 0 <= j < |tail| && tail[j] == e;
        assert es[j + 1] == e;
      }
      Common.FilterAll(tail, keep);
      assert Without(es, 0) == tail;
    } else {
      assert tail[i - 1] == es[i] && es[0].key != es[i].key;
      WithoutIsFilter(tail, i - 1);
      assert Without(es, i) == [es[0]] + Without(tail, i - 1);
    }
  }

  lemma WithoutAt(es: Entries, i: nat)
    requires DistinctKeys(es) && i < |es|
    ensures |Without(es, i)| == |es| - 1
    ensures forall j :: 0 <= j < |es| - 1 ==> Without(es, i)[j] == es[if j < i then j else j + 1]
    ensures forall j :: 0 <= j < |es| - 1 ==> Without(es, i)[j].key != es[i].key
  {
  }

  // A hit puts the block first and leaves the others in their order; so does an
  // overwrite, with the new bytes and the old resistance.
  lemma UseMovesToFront(es: Entries, i: nat, value: Bytes, maxBytes: nat, resists: bool)
    requires DistinctKeys(es) && i < |es|
    ensures AfterGet(es, es[i].key) == [es[i]] + Common.Filter(es, OtherThan(es[i].key))
    ensures AfterInsert(es, es[i].key, value, maxBytes, resists)
         == [Entry(es[i].key, value, es[i].resist)] + Common.Filter(es, OtherThan(es[i].key))
  {
    FindAt(es, i);
    WithoutIsFilter(es, i);
    assert Without(es[i := es[i].(value := value)], i) == Without(es, i);
  }

  // A look-up that misses changes nothing.
  lemma MissKeepsAll(es: Entries, k: BlockKey)
    requires forall i :: 0 <= i < |es| ==> es[i].key != k
    ensures AfterGet(es, k) == es
  {
  }

  // ----- moves to the front, over every run

  // The last event that moved the block to the front, or -1.
  function LastMove(log: seq<Event>, k: BlockKey): int {
    if log == [] then -1
    else
      var last := |log| - 1;
      if log[last].k == k && !log[last].Evicted? then last else LastMove(log[..last], k)
  }

  lemma LastMoveSnoc(log: seq<Event>, e: Event, k: BlockKey)
    ensures LastMove(log + [e], k) == if e.k == k && !e.Evicted? then |log| else LastMove(log, k)
  {
    assert (log + [e])[..|log|] == log;
  }

  lemma {:induction false} LastMoveBound(log: seq<Event>, k: BlockKey)
    ensures -1 <= LastMove(log, k) < |log|
  {
    if log != [] { LastMoveBound(log[..|log| - 1], k); }
  }

  ghost predicate Recent(es: Entries, log: seq<Event>) {
    forall i, j :: 0 <= i < j < |es| ==> LastMove(log, es[i].key) > LastMove(log, es[j].key)
  }

  // A block moved to the front of others that keep their order.
  lemma FrontRecent(rest: Entries, log: seq<Event>, e: Entry, ev: Event)
    requires Recent(rest, log) && ev.k == e.key && !ev.Evicted? && forall i :: 0 <= i < |rest| ==> rest[i].key != e.key
    ensures Recent([e] + rest, log + [ev])
  {
    var out := [e] + rest;
    forall i, j | 0 <= i < j < |out| ensures LastMove(log + [ev], out[i].key) > LastMove(log + [ev], out[j].key) {
      LastMoveSnoc(log, ev, out[i].key);
      LastMoveSnoc(log, ev, out[j].key);
      LastMoveBound(log, out[j].key);
      if i > 0 { assert out[i] == rest[i - 1] && out[j] == rest[j - 1]; }
    }
  }

  lemma ToFrontRecent(es: Entries, log: seq<Event>, i: nat, e: Entry)
    requires DistinctKeys(es) && Recent(es, log) && i < |es| && e.key == es[i].key
    ensures Recent(ToFront(es[i := e], i), log + [Used(e.key)])
  {
    var rest := Without(es, i);
    assert ToFront(es[i := e], i) == [e] + rest;
    WithoutAt(es, i);
    FrontRecent(rest, log, e, Used(e.key));
  }

  lemma AttemptRecent(es: Entries, log: seq<Event>, resists: bool)
    requires DistinctKeys(es) && Recent(es, log) && es != []
    ensures DistinctKeys(AfterEvictAttempt(es, resists))
    ensures Recent(AfterEvictAttempt(es, resists), log + [AttemptEvent(es, resists)])
  {
    var last, ev := |es| - 1, AttemptEvent(es, resists);
    if ev.Reprieved? {
      FrontRecent(es[..last], log, es[last].(resist := es[last].resist - 1), ev);
    } else {
      forall i | 0 <= i < last ensures LastMove(log + [ev], es[i].key) == LastMove(log, es[i].key) {
        LastMoveSnoc(log, ev, es[i].key);
      }
    }
  }

  lemma {:induction false} EvictionsRecent(es: Entries, log: seq<Event>, size: nat, maxBytes: nat, resists: bool)
    requires DistinctKeys(es) && Recent(es, log)
    ensures Recent(AfterEvictions(es, size, maxBytes, resists), log + EvictionEvents(es, size, maxBytes, resists))
    decreases Stamina(es)
  {
    if TotalBytes(es) + size > maxBytes && es != [] {
      var rest, e := AfterEvictAttempt(es, resists), AttemptEvent(es, resists);
      AttemptTires(es, resists);
      AttemptRecent(es, log, resists);
      EvictionsRecent(rest, log + [e], size, maxBytes, resists);
      Common.Regroup(log, [e], EvictionEvents(rest, size, maxBytes, resists));
    } else {
      assert log + [] == log;
    }
  }

  lemma InsertRecent(es: Entries, log: seq<Event>, k: BlockKey, value: Bytes, maxBytes: nat, resists: bool)
    requires DistinctKeys(es) && Recent(es, log) && Find(es, k).None?
    ensures Recent(AfterInsert(es, k, value, maxBytes, resists), log + (EvictionEvents(es, |value|, maxBytes, resists) + [Inserted(k)]))
  {
    var events := EvictionEvents(es, |value|, maxBytes, resists);
    EvictionsRecent(es, log, |value|, maxBytes, resists);
    EvictionsKeepAbsent(es, |value|, maxBytes, resists, k);
    FrontRecent(AfterEvictions(es, |value|, maxBytes, resists), log + events, AfterInsert(es, k, value, maxBytes, resists)[0], Inserted(k));
    Common.Regroup(log, events, [Inserted(k)]);
  }

  lemma OpRecent(es: Entries, log: seq<Event>, op: Op, maxBytes: nat, resists: bool)
    requires DistinctKeys(es) && Recent(es, log)
    ensures Recent(AfterOp(es, op, maxBytes, resists), log + OpEvents(es, op, maxBytes, resists))
  {
    var r := Find(es, op.k);
    if r.Some? {
      if op.GetOp? {
        assert es[r.value := es[r.value]] == es;
        ToFrontRecent(es, log, r.value, es[r.value]);
      } else {
        ToFrontRecent(es, log, r.value, es[r.value].(value := op.value));
      }
    } else if op.InsertOp? {
      InsertRecent(es, log, op.k, op.value, maxBytes, resists);
    } else {
      assert log + [] == log;
    }
  }

  // In every run of either kind of pool the blocks are in order of the last
  // insertion, use or reprieve that moved them to the front, latest first.
  lemma {:induction false} RunRecent(ops: seq<Op>, maxBytes: nat, resists: bool)
    ensures Recent(RunEntries(ops, maxBytes, resists), RunEvents(ops, maxBytes, resists))
  {
    if ops != [] {
      var before := ops[..|ops| - 1];
      RunRecent(before, maxBytes, resists);
      RunReprieves(before, maxBytes, resists);
      OpRecent(RunEntries(before, maxBytes, resists), RunEvents(before, maxBytes, resists), ops[|ops| - 1], maxBytes, resists);
    }
  }

  // ----- least recently used, in terms of the operations alone

  // The last operation on the block, or -1.
  function LastUse(ops: seq<Op>, k: BlockKey): int {
    if ops == [] then -1
    else
      var last := |ops| - 1;
      if ops[last].k == k then last else LastUse(ops[..last], k)
  }

  // The bytes last inserted for the block.
  function LastValue(ops: seq<Op>, k: BlockKey): Common.Option<Bytes> {
    if ops == [] then Common.None
    else
      var op, before := ops[|ops| - 1], ops[..|ops| - 1];
      if op.InsertOp? && op.k == k then Common.Some(op.value) else LastValue(before, k)
  }

  lemma {:induction false} LastUseBound(ops: seq<Op>, k: BlockKey)
    ensures -1 <= LastUse(ops, k) < |ops|
  {
    if ops != [] { LastUseBound(ops[..|ops| - 1], k); }
  }

  ghost predicate LruOrder(es: Entries, ops: seq<Op>) {
    forall i, j :: 0 <= i < j < |es| ==> LastUse(ops, es[i].key) > LastUse(ops, es[j].key)
  }

  ghost predicate Latest(es: Entries, ops: seq<Op>) {
    forall i :: 0 <= i < |es| ==> Common.Some(es[i].value) == LastValue(ops, es[i].key)
  }

  // After an operation that leaves its block in the pool, first, and the others
  // as they were.
  lemma FrontLru(rest: Entries, ops: seq<Op>, e: Entry)
    requires ops != [] && LruOrder(rest, ops[..|ops| - 1]) && e.key == ops[|ops| - 1].k
    requires forall i :: 0 <= i < |rest| ==> rest[i].key != e.key
    ensures LruOrder([e] + rest, ops)
  {
    var out, before := [e] + rest, ops[..|ops| - 1];
    forall i, j | 0 <= i < j < |out| ensures LastUse(ops, out[i].key) > LastUse(ops, out[j].key) {
      LastUseBound(before, out[j].key);
      if i > 0 { assert out[i] == rest[i - 1] && out[j] == rest[j - 1]; }
    }
  }

  lemma UseLru(es: Entries, ops: seq<Op>, i: nat, e: Entry)
    requires ops != [] && DistinctKeys(es) && LruOrder(es, ops[..|ops| - 1])
    requires i < |es| && e.key == es[i].key == ops[|ops| - 1].k
    ensures LruOrder([e] + Without(es, i), ops)
  {
    WithoutAt(es, i);
    FrontLru(Without(es, i), ops, e);
  }

  lemma OpLru(es: Entries, ops: seq<Op>, maxBytes: nat)
    requires ops != [] && DistinctKeys(es) && LruOrder(es, ops[..|ops| - 1])
    ensures LruOrder(AfterOp(es, ops[|ops| - 1], maxBytes, false), ops)
  {
    var op := ops[|ops| - 1];
    var r := Find(es, op.k);
    if r.Some? {
      var i := r.value;
      UseMovesToFront(es, i, if op.InsertOp? then op.value else [], maxBytes, false);
      WithoutIsFilter(es, i);
      UseLru(es, ops, i, AfterOp(es, op, maxBytes, false)[0]);
    } else if op.InsertOp? {
      EvictsShortestSuffix(es, |op.value|, maxBytes);
      FrontLru(AfterEvictions(es, |op.value|, maxBytes, false), ops, AfterOp(es, op, maxBytes, false)[0]);
    }
  }

  // In every run of a pool without second chances the blocks are in order of
  // the last operation on them, latest first. So what an insertion evicts, the
  // shortest suffix that suffices, is least recently used.
  lemma {:induction false} RunIsLru(ops: seq<Op>, maxBytes: nat)
    ensures LruOrder(RunEntries(ops, maxBytes, false), ops)
  {
    if ops != [] {
      var before := ops[..|ops| - 1];
      RunIsLru(before, maxBytes);
      RunReprieves(before, maxBytes, false);
      OpLru(RunEntries(before, maxBytes, false), ops, maxBytes);
    }
  }

  lemma {:induction false} EvictionsLatest(es: Entries, ops: seq<Op>, size: nat, maxBytes: nat, resists: bool)
    requires Latest(es, ops)
    ensures Latest(AfterEvictions(es, size, maxBytes, resists), ops)
    decreases Stamina(es)
  {
    if TotalBytes(es) + size > maxBytes && es != [] {
      AttemptTires(es, resists);
      EvictionsLatest(AfterEvictAttempt(es, resists), ops, size, maxBytes, resists);
    }
  }

  lemma FrontLatest(rest: Entries, ops: seq<Op>, e: Entry)
    requires ops != [] && Latest(rest, ops[..|ops| - 1]) && Common.Some(e.value) == LastValue(ops, e.key)
    requires forall i :: 0 <= i < |rest| ==> rest[i].key != ops[|ops| - 1].k
    ensures Latest([e] + rest, ops)
  {
  }

  lemma OpLatest(es: Entries, ops: seq<Op>, maxBytes: nat, resists: bool)
    requires ops != [] && DistinctKeys(es) && Latest(es, ops[..|ops| - 1])
    ensures Latest(AfterOp(es, ops[|ops| - 1], maxBytes, resists), ops)
  {
    var op, before := ops[|ops| - 1], ops[..|ops| - 1];
    var r := Find(es, op.k);
    if r.Some? {
      var i := r.value;
      UseMovesToFront(es, i, if op.InsertOp? then op.value else [], maxBytes, resists);
      WithoutIsFilter(es, i);
      WithoutAt(es, i);
      FrontLatest(Without(es, i), ops, AfterOp(es, op, maxBytes, resists)[0]);
    } else if op.InsertOp? {
      EvictionsLatest(es, before, |op.value|, maxBytes, resists);
      EvictionsKeepAbsent(es, |op.value|, maxBytes, resists, op.k);
      FrontLatest(AfterEvictions(es, |op.value|, maxBytes, resists), ops, AfterOp(es, op, maxBytes, resists)[0]);
    }
  }

  // In every run of either kind of pool a block holds the bytes last inserted
  // for it, so those are what a hit returns.
  lemma {:induction false} RunHoldsLatest(ops: seq<Op>, maxBytes: nat, resists: bool)
    ensures Latest(RunEntries(ops, maxBytes, resists), ops)
  {
    if ops != [] {
      var before := ops[..|ops| - 1];
      RunHoldsLatest(before, maxBytes, resists);
      RunReprieves(before, maxBytes, resists);
      OpLatest(RunEntries(before, maxBytes, resists), ops, maxBytes, resists);
    }
  }
}
