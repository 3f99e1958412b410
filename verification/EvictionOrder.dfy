// Which blocks an insertion leaves in a pool with second chances. The eviction
// loop lowers the resistance of the least recently used block and moves it to
// the front, again and again; all the same the blocks leave in one order that is
// fixed beforehand: by resistance, and least recently used first.
module EvictionOrder {
  import opened BlockCache
  import Common

  datatype Block = Block(key: BlockKey, value: Bytes)

  function BlockOf(e: Entry): Block {
    Block(e.key, e.value)
  }

  // The blocks of one resistance, least recently used first.
  function Level(es: Entries, r: nat): seq<Block> {
    if es == [] then []
    else
      var last := |es| - 1;
      (if es[last].resist == r then [BlockOf(es[last])] else []) + Level(es[..last], r)
  }

  // The blocks of resistance `r` to `r + n - 1` in order of eviction.
  function Order(es: Entries, r: nat, n: nat): seq<Block>
    decreases n
  {
    if n == 0 then [] else Level(es, r) + Order(es, r + 1, n - 1)
  }

  function BlockBytes(bs: seq<Block>): nat {
    if bs == [] then 0 else |bs[0].value| + BlockBytes(bs[1..])
  }

  predicate Below(es: Entries, n: nat) {
    forall i :: 0 <= i < |es| ==> es[i].resist < n
  }

  // ----- the order and the entries hold the same blocks

  lemma {:induction false} LevelHolds(es: Entries, r: nat, b: Block)
    ensures b in Level(es, r) <==> exists i :: 0 <= i < |es| && es[i].resist == r && BlockOf(es[i]) == b
  {
    if es != [] {
      var last := |es| - 1;
      LevelHolds(es[..last], r, b);
      assert forall i :: 0 <= i < last ==> es[i] == es[..last][i];
    }
  }

  lemma {:induction false} OrderHolds(es: Entries, r: nat, n: nat, b: Block)
    ensures b in Order(es, r, n) <==> exists i :: 0 <= i < |es| && r <= es[i].resist < r + n && BlockOf(es[i]) == b
    decreases n
  {
    if n > 0 {
      LevelHolds(es, r, b);
      OrderHolds(es, r + 1, n - 1, b);
    }
  }

  lemma {:induction false} BytesAppend(a: seq<Block>, b: seq<Block>)
    ensures BlockBytes(a + b) == BlockBytes(a) + BlockBytes(b)
  {
    if a == [] {
      assert a + b == b;
    } else {
      BytesAppend(a[1..], b);
      assert (a + b)[1..] == a[1..] + b;
    }
  }

  // ----- one attempt

  // The least recently used block comes first in its level.
  lemma LevelLast(es: Entries, e: Entry, r: nat)
    ensures Level(es + [e], r) == (if e.resist == r then [BlockOf(e)] else []) + Level(es, r)
  {
    assert (es + [e])[..|es|] == es;
  }

  // The most recently used one comes last.
  lemma {:induction false} LevelFirst(es: Entries, e: Entry, r: nat)
    ensures Level([e] + es, r) == Level(es, r) + if e.resist == r then [BlockOf(e)] else []
  {
    if es == [] {
      assert [e] + es == [e] && [e][..0] == [];
      assert Level([e], r) == (if e.resist == r then [BlockOf(e)] else []) + Level([], r);
    } else {
      var last := |es| - 1;
      LevelFirst(es[..last], e, r);
      assert ([e] + es)[..|es|] == [e] + es[..last];
      Common.Regroup(if es[last].resist == r then [BlockOf(es[last])] else [], Level(es[..last], r), if e.resist == r then [BlockOf(e)] else []);
    }
  }

  // An entry of another resistance does not show in the levels above it.
  lemma {:induction false} OrderAbove(es: Entries, e: Entry, r: nat, n: nat)
    requires e.resist < r
    ensures Order(es + [e], r, n) == Order(es, r, n) == Order([e] + es, r, n)
    decreases n
  {
    if n > 0 {
      LevelLast(es, e, r);
      LevelFirst(es, e, r);
      assert [] + Level(es, r) == Level(es, r) == Level(es, r) + [];
      OrderAbove(es, e, r + 1, n - 1);
    }
  }

  lemma OrderAt(es: Entries, e: Entry, n: nat)
    requires n > 0
    ensures Order(es + [e], e.resist, n) == [BlockOf(e)] + Order(es, e.resist, n)
    ensures Order([e] + es, e.resist, n) == Level(es, e.resist) + ([BlockOf(e)] + Order(es, e.resist + 1, n - 1))
  {
    var b, level, above := [BlockOf(e)], Level(es, e.resist), Order(es, e.resist + 1, n - 1);
    LevelLast(es, e, e.resist);
    LevelFirst(es, e, e.resist);
    OrderAbove(es, e, e.resist + 1, n - 1);
    Common.Regroup(b, level, above);
    Common.Regroup(level, b, above);
  }

  // A reprieve keeps the order: the first block of one level becomes the last
  // of the level below.
  lemma {:induction false} OrderReprieved(es: Entries, e: Entry, low: Entry, r: nat, n: nat)
    requires e.resist > 0 && low == e.(resist := e.resist - 1) && r < e.resist < r + n
    ensures Order([low] + es, r, n) == Order(es + [e], r, n)
    decreases n
  {
    LevelLast(es, e, r);
    if r == low.resist {
      OrderAt(es, low, n);
      OrderAt(es, e, n - 1);
      assert [] + Level(es, r) == Level(es, r);
    } else {
      LevelFirst(es, low, r);
      assert [] + Level(es, r) == Level(es, r) == Level(es, r) + [];
      OrderReprieved(es, e, low, r + 1, n - 1);
    }
  }

  lemma BelowAfter(es: Entries, n: nat)
    requires es != [] && Below(es, n)
    ensures Below(AfterEvictAttempt(es, true), n)
  {
  }

  // An attempt takes the first block of the order, or keeps the order.
  lemma AttemptInOrder(es: Entries, n: nat)
    requires es != [] && Below(es, n)
    ensures var before, after := Order(es, 0, n), Order(AfterEvictAttempt(es, true), 0, n);
      if es[|es| - 1].resist == 0 then before != [] && after == before[1..] else after == before
  {
    var last := |es| - 1;
    var e, rest := es[last], es[..last];
    assert es == rest + [e];
    if e.resist == 0 {
      OrderAt(rest, e, n);
      assert ([BlockOf(e)] + Order(rest, 0, n))[1..] == Order(rest, 0, n);
    } else {
      OrderReprieved(rest, e, e.(resist := e.resist - 1), 0, n);
    }
  }

  // ----- the whole loop

  function BytesIn(es: Entries, r: nat, n: nat): nat {
    if es == [] then 0
    else
      var last := |es| - 1;
      (if r <= es[last].resist < r + n then |es[last].value| else 0) + BytesIn(es[..last], r, n)
  }

  lemma {:induction false} LevelBytes(es: Entries, r: nat)
    ensures BlockBytes(Level(es, r)) == BytesIn(es, r, 1)
  {
    if es != [] {
      var last := |es| - 1;
      LevelBytes(es[..last], r);
      var one := if es[last].resist == r then [BlockOf(es[last])] else [];
      BytesAppend(one, Level(es[..last], r));
      assert one != [] ==> one[1..] == [];
    }
  }

  lemma {:induction false} BytesInSplit(es: Entries, r: nat, n: nat)
    requires n > 0
    ensures BytesIn(es, r, n) == BytesIn(es, r, 1) + BytesIn(es, r + 1, n - 1)
  {
    if es != [] { BytesInSplit(es[..|es| - 1], r, n); }
  }

  lemma {:induction false} NoBytesIn(es: Entries, r: nat)
    ensures BytesIn(es, r, 0) == 0
  {
    if es != [] { NoBytesIn(es[..|es| - 1], r); }
  }

  lemma {:induction false} OrderBytesIn(es: Entries, r: nat, n: nat)
    ensures BlockBytes(Order(es, r, n)) == BytesIn(es, r, n)
    decreases n
  {
    if n == 0 {
      NoBytesIn(es, r);
    } else {
      OrderBytesIn(es, r + 1, n - 1);
      LevelBytes(es, r);
      BytesInSplit(es, r, n);
      BytesAppend(Level(es, r), Order(es, r + 1, n - 1));
    }
  }

  lemma {:induction false} AllBytesIn(es: Entries, n: nat)
    requires Below(es, n)
    ensures BytesIn(es, 0, n) == TotalBytes(es)
  {
    if es != [] {
      AllBytesIn(es[..|es| - 1], n);
      SumsLast(es);
    }
  }

  lemma OrderBytes(es: Entries, n: nat)
    requires Below(es, n)
    ensures BlockBytes(Order(es, 0, n)) == TotalBytes(es)
  {
    OrderBytesIn(es, 0, n);
    AllBytesIn(es, n);
  }

  // The first `j` blocks of the order are gone, and none of them too many: up to
  // the last of them the rest did not leave room.
  ghost predicate TookFirst(all: seq<Block>, left: seq<Block>, j: nat, size: nat, maxBytes: nat) {
    j <= |all| && left == all[j..] && forall i :: 0 <= i < j ==> BlockBytes(all[i..]) + size > maxBytes
  }

  lemma TookOneMore(all: seq<Block>, left: seq<Block>, j: nat, size: nat, maxBytes: nat)
    requires all != [] && BlockBytes(all) + size > maxBytes && TookFirst(all[1..], left, j, size, maxBytes)
    ensures TookFirst(all, left, j + 1, size, maxBytes)
  {
    assert all[1..][j..] == all[j + 1..] && all[0..] == all;
    forall i | 0 <= i < j + 1 ensures BlockBytes(all[i..]) + size > maxBytes {
      if i > 0 { assert all[i..] == all[1..][i - 1..]; }
    }
  }

  // Making room in a pool with second chances takes the shortest prefix of the
  // eviction order that leaves room, or everything.
  lemma {:induction false} EvictsInOrder(es: Entries, size: nat, maxBytes: nat, n: nat) returns (j: nat)
    requires Below(es, n)
    ensures var out := AfterEvictions(es, size, maxBytes, true);
      && Below(out, n) && TookFirst(Order(es, 0, n), Order(out, 0, n), j, size, maxBytes)
      && (out == [] || TotalBytes(out) + size <= maxBytes)
    decreases Stamina(es)
  {
    var all := Order(es, 0, n);
    OrderBytes(es, n);
    if TotalBytes(es) + size > maxBytes && es != [] {
      AttemptTires(es, true);
      BelowAfter(es, n);
      AttemptInOrder(es, n);
      j := EvictsInOrder(AfterEvictAttempt(es, true), size, maxBytes, n);
      if es[|es| - 1].resist == 0 {
        TookOneMore(all, Order(AfterEvictions(es, size, maxBytes, true), 0, n), j, size, maxBytes);
        j := j + 1;
      }
    } else {
      j := 0;
      assert all[0..] == all;
    }
  }

  // ----- the filter pool

  lemma {:induction false} RunBelow(ops: seq<Op>, maxBytes: nat)
    ensures Below(RunEntries(ops, maxBytes, true), FILTER_RESIST_COUNT + 1)
  {
    if ops != [] {
      var before := RunEntries(ops[..|ops| - 1], maxBytes, true);
      RunBelow(ops[..|ops| - 1], maxBytes);
      match ops[|ops| - 1]
      case GetOp(k) =>
      case InsertOp(k, value) =>
        var j := EvictsInOrder(before, |value|, maxBytes, FILTER_RESIST_COUNT + 1);
    }
  }

  // After every run, inserting a new block into the filter pool evicts the
  // shortest prefix of the eviction order that leaves room for it, or all.
  lemma FilterPoolEvicts(ops: seq<Op>, maxBytes: nat, k: BlockKey, value: Bytes) returns (j: nat)
    requires BlockCache.Find(RunEntries(ops, maxBytes, true), k).None?
    ensures var es := RunEntries(ops, maxBytes, true);
      var out := RunEntries(ops + [InsertOp(k, value)], maxBytes, true);
      && out != [] && out[0] == Entry(k, value, FILTER_RESIST_COUNT)
      && TookFirst(Order(es, 0, FILTER_RESIST_COUNT + 1), Order(out[1..], 0, FILTER_RESIST_COUNT + 1), j, |value|, maxBytes)
      && (out[1..] == [] || TotalBytes(out) <= maxBytes)
  {
    var es := RunEntries(ops, maxBytes, true);
    RunBelow(ops, maxBytes);
    j := EvictsInOrder(es, |value|, maxBytes, FILTER_RESIST_COUNT + 1);
    var left := AfterEvictions(es, |value|, maxBytes, true);
    assert (ops + [InsertOp(k, value)])[..|ops|] == ops;
    assert ([Entry(k, value, FILTER_RESIST_COUNT)] + left)[1..] == left;
  }
}
