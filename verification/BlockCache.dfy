// The storage node's block cache. Each pool is a least-recently-used list
// whose links are keys stored in a hash map; blocks of the filter pool survive
// a number of eviction attempts.
module BlockCache {
  import opened Common

  datatype BlockType = Data | Filter | Index

  datatype BlockKey = BlockKey(partition: string, column: string, segment: nat, blockType: BlockType)

  type Bytes = seq<bv8>

  datatype Node = Node(value: Bytes, resist: nat, prev: Option<BlockKey>, next: Option<BlockKey>)

  const FILTER_RESIST_COUNT: nat := 3

  // ----- what a pool means: its entries, most recently used first

  datatype Entry = Entry(key: BlockKey, value: Bytes, resist: nat)

  type Entries = seq<Entry>

  function TotalBytes(es: Entries): nat {
    if es == [] then 0 else |es[0].value| + TotalBytes(es[1..])
  }

  // Eviction attempts the entries can absorb before the pool is empty.
  function Stamina(es: Entries): nat {
    if es == [] then 0 else es[0].resist + 1 + Stamina(es[1..])
  }

  predicate DistinctKeys(es: Entries) {
    forall i, j :: 0 <= i < j < |es| ==> es[i].key != es[j].key
  }

  function Find(es: Entries, k: BlockKey): (r: Option<nat>)
    ensures r.Some? ==> r.value < |es| && es[r.value].key == k
    ensures r.None? ==> forall i :: 0 <= i < |es| ==> es[i].key != k
  {
    if es == [] then None
    else if es[0].key == k then Some(0)
    else
      var r := Find(es[1..], k);
      if r.Some? then Some(r.value + 1) else assert es == [es[0]] + es[1..]; None
  }

  function Without(es: Entries, i: nat): Entries
    requires i < |es|
  {
    es[..i] + es[i + 1..]
  }

  function ToFront(es: Entries, i: nat): Entries
    requires i < |es|
  {
    [es[i]] + Without(es, i)
  }

  function AfterGet(es: Entries, k: BlockKey): Entries {
    var r := Find(es, k);
    if r.Some? then ToFront(es, r.value) else es
  }

  function AfterEvictAttempt(es: Entries, resists: bool): Entries {
    if es == [] then []
    else
      var last := |es| - 1;
      if resists && es[last].resist > 0
      then [es[last].(resist := es[last].resist - 1)] + es[..last]
      else es[..last]
  }

  lemma {:induction false} SumsAppend(a: Entries, b: Entries)
    ensures TotalBytes(a + b) == TotalBytes(a) + TotalBytes(b)
    ensures Stamina(a + b) == Stamina(a) + Stamina(b)
  {
    if a == [] {
      assert a + b == b;
    } else {
      SumsAppend(a[1..], b);
      assert (a + b)[1..] == a[1..] + b;
    }
  }

  lemma SumsLast(es: Entries)
    requires es != []
    ensures TotalBytes(es) == TotalBytes(es[..|es| - 1]) + |es[|es| - 1].value|
    ensures Stamina(es) == Stamina(es[..|es| - 1]) + es[|es| - 1].resist + 1
  {
    var last := |es| - 1;
    assert es == es[..last] + [es[last]];
    SumsAppend(es[..last], [es[last]]);
    SumsOne(es[last]);
  }

  lemma SumsOne(e: Entry)
    ensures TotalBytes([e]) == |e.value| && Stamina([e]) == e.resist + 1
  {
    assert [e][1..] == [];
  }

  // Every eviction attempt uses up stamina, so the eviction loop terminates on
  // every pool state.
  lemma AttemptTires(es: Entries, resists: bool)
    requires es != []
    ensures Stamina(AfterEvictAttempt(es, resists)) < Stamina(es)
  {
    SumsLast(es);
    var last := |es| - 1;
    SumsAppend([es[last].(resist := if es[last].resist > 0 then es[last].resist - 1 else 0)], es[..last]);
  }

  function AfterEvictions(es: Entries, size: nat, maxBytes: nat, resists: bool): Entries
    decreases Stamina(es)
  {
    if TotalBytes(es) + size > maxBytes && es != [] then
      AttemptTires(es, resists);
      AfterEvictions(AfterEvictAttempt(es, resists), size, maxBytes, resists)
    else es
  }

  function AfterInsert(es: Entries, k: BlockKey, value: Bytes, maxBytes: nat, resists: bool): Entries {
    var r := Find(es, k);
    if r.Some? then ToFront(es[r.value := es[r.value].(value := value)], r.value)
    else
      var resist := if resists then FILTER_RESIST_COUNT else 0;
      [Entry(k, value, resist)] + AfterEvictions(es, |value|, maxBytes, resists)
  }

  // ----- the linked representation

  type Nodes = map<BlockKey, Node>

  function PrevAt(order: seq<BlockKey>, i: nat): Option<BlockKey>
    requires i < |order|
  {
    if i == 0 then None else Some(order[i - 1])
  }

  function NextAt(order: seq<BlockKey>, i: nat): Option<BlockKey>
    requires i < |order|
  {
    if i == |order| - 1 then None else Some(order[i + 1])
  }

  function First(order: seq<BlockKey>): Option<BlockKey> {
    if order == [] then None else Some(order[0])
  }

  function Last(order: seq<BlockKey>): Option<BlockKey> {
    if order == [] then None else Some(order[|order| - 1])
  }

  ghost predicate Distinct(order: seq<BlockKey>) {
    forall i, j :: 0 <= i < j < |order| ==> order[i] != order[j]
  }

  ghost predicate SameKeys(m: Nodes, order: seq<BlockKey>) {
    (forall i :: 0 <= i < |order| ==> order[i] in m) && (forall k :: k in m ==> k in order)
  }

  ghost predicate LinkAt(m: Nodes, order: seq<BlockKey>, i: nat) {
    i < |order| && order[i] in m && m[order[i]].prev == PrevAt(order, i) && m[order[i]].next == NextAt(order, i)
  }

  // The map is one doubly linked list, in this order, holding each key once.
  ghost predicate Linked(m: Nodes, order: seq<BlockKey>) {
    && Distinct(order)
    && SameKeys(m, order)
    && forall i {:trigger LinkAt(m, order, i)} :: 0 <= i < |order| ==> LinkAt(m, order, i)
  }

  ghost predicate EntryAt(m: Nodes, order: seq<BlockKey>, es: Entries, i: nat) {
    i < |order| && i < |es| && order[i] in m && es[i] == Entry(order[i], m[order[i]].value, m[order[i]].resist)
  }

  // The map represents the list of entries `es`.
  ghost predicate Represents(m: Nodes, order: seq<BlockKey>, es: Entries) {
    && Linked(m, order)
    && |es| == |order|
    && forall i {:trigger EntryAt(m, order, es, i)} :: 0 <= i < |order| ==> EntryAt(m, order, es, i)
  }

  function SetNext(m: Nodes, k: Option<BlockKey>, next: Option<BlockKey>): Nodes {
    if k.Some? && k.value in m then m[k.value := m[k.value].(next := next)] else m
  }

  function SetPrev(m: Nodes, k: Option<BlockKey>, prev: Option<BlockKey>): Nodes {
    if k.Some? && k.value in m then m[k.value := m[k.value].(prev := prev)] else m
  }

  // The map after unlinking `k` and relinking it before the old head.
  function Relinked(m: Nodes, k: BlockKey, head: Option<BlockKey>): Nodes
    requires k in m
  {
    var prev, next := m[k].prev, m[k].next;
    var m1 := SetPrev(SetNext(m, prev, next), next, prev);
    var m2 := SetPrev(m1, head, Some(k));
    SetFront(m2, k, head)
  }

  function SetFront(m: Nodes, k: BlockKey, head: Option<BlockKey>): Nodes {
    if k in m then m[k := m[k].(prev := None, next := head)] else m
  }

  function FrontOrder(order: seq<BlockKey>, i: nat): (out: seq<BlockKey>)
    requires i < |order|
    ensures |out| == |order| && out[0] == order[i]
    ensures forall j :: 0 < j <= i ==> out[j] == order[j - 1]
    ensures forall j :: i < j < |order| ==> out[j] == order[j]
  {
    seq(|order|, j requires 0 <= j < |order| => if j == 0 then order[i] else if j <= i then order[j - 1] else order[j])
  }

  lemma FrontOrderKeys(m: Nodes, order: seq<BlockKey>, i: nat)
    requires Distinct(order) && SameKeys(m, order) && i < |order|
    ensures Distinct(FrontOrder(order, i)) && SameKeys(m, FrontOrder(order, i))
  {
    var out := FrontOrder(order, i);
    forall k | k in m ensures k in out {
      var j :| 0 <= j < |order| && order[j] == k;
      assert k == out[if j < i then j + 1 else if j > i then j else 0];
    }
    forall a, b | 0 <= a < b < |out| ensures out[a] != out[b] {
      var x := if a == 0 then i else if a <= i then a - 1 else a;
      var y := if b <= i then b - 1 else b;
      assert out[a] == order[x] && out[b] == order[y] && x != y;
    }
  }

  // What relinking leaves at one node: the moved node, the old head, the moved
  // node's old neighbours, and everything else.
  lemma RelinkedNode(m: Nodes, order: seq<BlockKey>, i: nat, j: nat)
    requires Linked(m, order) && 0 < i < |order| && j < |order|
    ensures var m', x := Relinked(m, order[i], First(order)), order[j];
      && m'.Keys == m.Keys
      && m'[x].value == m[x].value && m'[x].resist == m[x].resist
      && m'[x].prev == (if j == i then None else if j == 0 then Some(order[i]) else if j == i + 1 then Some(order[i - 1]) else Some(order[j - 1]))
      && m'[x].next == (if j == i then Some(order[0]) else if j == i - 1 then NextAt(order, i) else NextAt(order, j))
  {
    assert LinkAt(m, order, i) && LinkAt(m, order, j);
    var prev, next := order[i - 1], NextAt(order, i);
    assert order[i - 1] in m && order[0] in m;
    assert next.Some? ==> next.value == order[i + 1] && order[i + 1] in m;
    var m1 := SetNext(m, Some(prev), next);
    var m2 := SetPrev(m1, next, Some(prev));
    var m3 := SetPrev(m2, Some(order[0]), Some(order[i]));
    assert j != i - 1 ==> order[j] != order[i - 1];
    assert j != i ==> order[j] != order[i];
    assert j != 0 ==> order[j] != order[0];
    assert i + 1 < |order| && j != i + 1 ==> order[j] != order[i + 1];
    assert m1[order[j]].next == if j == i - 1 then next else m[order[j]].next;
    assert m2[order[j]].prev == if j == i + 1 then Some(prev) else m[order[j]].prev;
    assert m3[order[j]].prev == if j == 0 then Some(order[i]) else m2[order[j]].prev;
  }

  lemma RelinkedAt(m: Nodes, order: seq<BlockKey>, i: nat, j: nat)
    requires Linked(m, order) && 0 < i < |order| && j < |order|
    ensures LinkAt(Relinked(m, order[i], First(order)), FrontOrder(order, i), j)
  {
    var from := if j == 0 then i else if j <= i then j - 1 else j;
    RelinkedNode(m, order, i, from);
    NeighboursInFront(order, i, j);
  }

  // Whose neighbours the moved order makes neighbours.
  lemma NeighboursInFront(order: seq<BlockKey>, i: nat, j: nat)
    requires 0 < i < |order| && j < |order|
    ensures var out, from := FrontOrder(order, i), if j == 0 then i else if j <= i then j - 1 else j;
      && out[j] == order[from]
      && PrevAt(out, j) == (if j == 0 then None else if j == 1 then Some(order[i]) else if j == i + 1 then Some(order[i - 1]) else Some(order[from - 1]))
      && NextAt(out, j) == (if j == 0 then Some(order[0]) else if j == i then NextAt(order, i) else NextAt(order, from))
  {
  }

  lemma RelinkedLinked(m: Nodes, order: seq<BlockKey>, i: nat)
    requires Linked(m, order) && 0 < i < |order|
    ensures Linked(Relinked(m, order[i], First(order)), FrontOrder(order, i))
  {
    RelinkedNode(m, order, i, 0);
    FrontOrderKeys(Relinked(m, order[i], First(order)), order, i);
    forall j | 0 <= j < |order| ensures LinkAt(Relinked(m, order[i], First(order)), FrontOrder(order, i), j) {
      RelinkedAt(m, order, i, j);
    }
  }

  lemma {:induction false} FindAt(es: Entries, i: nat)
    requires DistinctKeys(es) && i < |es|
    ensures Find(es, es[i].key) == Some(i)
  {
  }

  lemma EntriesDistinct(m: Nodes, order: seq<BlockKey>, es: Entries)
    requires Represents(m, order, es)
    ensures DistinctKeys(es)
  {
    forall i, j | 0 <= i < j < |es| ensures es[i].key != es[j].key {
      assert EntryAt(m, order, es, i) && EntryAt(m, order, es, j);
    }
  }

  // A key is in the map exactly when it has an entry.
  lemma FindKey(m: Nodes, order: seq<BlockKey>, es: Entries, k: BlockKey) returns (i: nat)
    requires Represents(m, order, es)
    ensures k in m <==> Find(es, k).Some?
    ensures k in m ==> i < |order| && order[i] == k == es[i].key && Find(es, k) == Some(i)
    ensures k in m ==> m[k].value == es[i].value && m[k].resist == es[i].resist
  {
    i := 0;
    if Find(es, k).Some? {
      assert EntryAt(m, order, es, Find(es, k).value);
    }
    if k in m {
      i :| 0 <= i < |order| && order[i] == k;
      assert EntryAt(m, order, es, i);
      EntriesDistinct(m, order, es);
      FindAt(es, i);
    }
  }

  // Relinking a node in the map is moving its entry to the front of the list.
  lemma Relinking(m: Nodes, order: seq<BlockKey>, es: Entries, i: nat)
    requires Represents(m, order, es) && 0 < i < |order|
    ensures Represents(Relinked(m, order[i], First(order)), FrontOrder(order, i), ToFront(es, i))
  {
    RelinkedLinked(m, order, i);
    forall j | 0 <= j < |order|
      ensures EntryAt(Relinked(m, order[i], First(order)), FrontOrder(order, i), ToFront(es, i), j)
    {
      RelinkedEntry(m, order, es, i, j);
    }
  }

  lemma RelinkedEntry(m: Nodes, order: seq<BlockKey>, es: Entries, i: nat, j: nat)
    requires Represents(m, order, es) && 0 < i < |order| && j < |order|
    ensures EntryAt(Relinked(m, order[i], First(order)), FrontOrder(order, i), ToFront(es, i), j)
  {
    var from := if j == 0 then i else if j <= i then j - 1 else j;
    RelinkedNode(m, order, i, from);
    assert EntryAt(m, order, es, from);
    assert ToFront(es, i)[j] == es[from];
  }

  lemma RelinkedTail(m: Nodes, order: seq<BlockKey>, i: nat)
    requires Linked(m, order) && 0 < i < |order|
    ensures m[order[i]].prev == Some(order[i - 1])
    ensures m[order[i]].next.Some? <==> i < |order| - 1
    ensures Last(FrontOrder(order, i)) == if i == |order| - 1 then Some(order[i - 1]) else Last(order)
  {
    assert LinkAt(m, order, i);
  }

  lemma Removing(m: Nodes, order: seq<BlockKey>, es: Entries)
    requires Represents(m, order, es) && order != []
    ensures Represents(SetNext(m - {order[|order| - 1]}, PrevAt(order, |order| - 1), None), order[..|order| - 1], es[..|order| - 1])
  {
    var last := |order| - 1;
    var m' := SetNext(m - {order[last]}, PrevAt(order, last), None);
    RemovedKeys(m, order, m');
    forall i | 0 <= i < last ensures LinkAt(m', order[..last], i) && EntryAt(m', order[..last], es[..last], i) {
      assert LinkAt(m, order, i) && EntryAt(m, order, es, i);
      assert order[i] != order[last];
      if i != last - 1 { assert order[i] != order[last - 1]; }
    }
  }

  lemma RemovedKeys(m: Nodes, order: seq<BlockKey>, m': Nodes)
    requires Distinct(order) && SameKeys(m, order) && order != [] && m'.Keys == m.Keys - {order[|order| - 1]}
    ensures Distinct(order[..|order| - 1]) && SameKeys(m', order[..|order| - 1])
  {
    var rest := order[..|order| - 1];
    forall k | k in m' ensures k in rest {
      var j :| 0 <= j < |order| && order[j] == k;
      assert rest[j] == k;
    }
  }

  lemma Pushing(m: Nodes, order: seq<BlockKey>, es: Entries, k: BlockKey, value: Bytes, resist: nat)
    requires Represents(m, order, es) && k !in m
    ensures Represents(SetPrev(m, First(order), Some(k))[k := Node(value, resist, None, First(order))], [k] + order, [Entry(k, value, resist)] + es)
  {
    var m' := SetPrev(m, First(order), Some(k))[k := Node(value, resist, None, First(order))];
    var out, es' := [k] + order, [Entry(k, value, resist)] + es;
    PushedKeys(m, order, k, m');
    forall i | 0 <= i < |out| ensures LinkAt(m', out, i) && EntryAt(m', out, es', i) {
      if i > 0 { PushedAt(m, order, es, k, m', es', i - 1); }
    }
  }

  lemma PushedKeys(m: Nodes, order: seq<BlockKey>, k: BlockKey, m': Nodes)
    requires Distinct(order) && SameKeys(m, order) && k !in m && m'.Keys == m.Keys + {k}
    ensures Distinct([k] + order) && SameKeys(m', [k] + order)
  {
    var out := [k] + order;
    forall x | x in m' ensures x in out {
      if x != k {
        assert x in order;
      }
    }
  }

  lemma PushedAt(m: Nodes, order: seq<BlockKey>, es: Entries, k: BlockKey, m': Nodes, es': Entries, i: nat)
    requires Represents(m, order, es) && k !in m && k in m' && i < |order|
    requires m' == SetPrev(m, First(order), Some(k))[k := m'[k]]
    requires |es'| == |es| + 1 && es'[1..] == es
    ensures LinkAt(m', [k] + order, i + 1) && EntryAt(m', [k] + order, es', i + 1)
  {
    var out := [k] + order;
    assert LinkAt(m, order, i) && EntryAt(m, order, es, i);
    assert order[i] in m && order[0] in m;
    assert i > 0 ==> order[i] != order[0];
    assert out[i + 1] == order[i];
    assert out[i] == if i == 0 then k else order[i - 1];
    assert i + 1 < |order| ==> out[i + 2] == order[i + 1];
    assert es'[i + 1] == es'[1..][i];
  }

  // Replacing a node's value or counter leaves the links alone.
  lemma Rewriting(m: Nodes, order: seq<BlockKey>, es: Entries, i: nat, n: Node)
    requires Represents(m, order, es) && i < |order|
    requires n.prev == m[order[i]].prev && n.next == m[order[i]].next
    ensures Represents(m[order[i] := n], order, es[i := Entry(order[i], n.value, n.resist)])
  {
    var m', es' := m[order[i] := n], es[i := Entry(order[i], n.value, n.resist)];
    forall j | 0 <= j < |order| ensures LinkAt(m', order, j) && EntryAt(m', order, es', j) {
      assert LinkAt(m, order, j) && EntryAt(m, order, es, j);
    }
  }

  lemma BytesAt(es: Entries, i: nat)
    requires i < |es|
    ensures TotalBytes(es) == TotalBytes(Without(es, i)) + |es[i].value|
    ensures Stamina(es) == Stamina(Without(es, i)) + es[i].resist + 1
  {
    assert es == es[..i] + ([es[i]] + es[i + 1..]);
    SumsAppend(es[..i], [es[i]] + es[i + 1..]);
    SumsAppend([es[i]], es[i + 1..]);
    SumsAppend(es[..i], es[i + 1..]);
  }

  lemma ToFrontBytes(es: Entries, i: nat)
    requires i < |es|
    ensures TotalBytes(ToFront(es, i)) == TotalBytes(es)
  {
    BytesAt(es, i);
    SumsAppend([es[i]], Without(es, i));
  }

  lemma RewrittenBytes(es: Entries, i: nat, e: Entry)
    requires i < |es|
    ensures TotalBytes(es[i := e]) == TotalBytes(es) - |es[i].value| + |e.value|
    ensures TotalBytes(es) >= |es[i].value|
  {
    BytesAt(es, i);
    BytesAt(es[i := e], i);
    assert Without(es[i := e], i) == Without(es, i);
  }

  lemma AttemptKeys(es: Entries, resists: bool, k: BlockKey)
    requires es != [] && Find(es, k).None?
    ensures Find(AfterEvictAttempt(es, resists), k).None?
  {
    var out := AfterEvictAttempt(es, resists);
    forall i | 0 <= i < |out| ensures out[i].key != k {}
  }

  // The pool's fields hold the entries `es`, most recently used first.
  ghost predicate Pooled(m: Nodes, head: Option<BlockKey>, tail: Option<BlockKey>, used: nat, order: seq<BlockKey>, es: Entries) {
    Represents(m, order, es) && head == First(order) && tail == Last(order) && used == TotalBytes(es)
  }

  // The fields after moving a node that is not the head, and the entries they
  // then hold.
  lemma Moving(m: Nodes, head: Option<BlockKey>, tail: Option<BlockKey>, used: nat, order: seq<BlockKey>, es: Entries, k: BlockKey)
    returns (out: seq<BlockKey>, moved: Entries)
    requires Pooled(m, head, tail, used, order, es) && k in m
    ensures moved == AfterGet(es, k)
    ensures head == Some(k) ==> moved == es
    ensures head != Some(k) ==> Pooled(Relinked(m, k, head), Some(k), if m[k].next.Some? then tail else m[k].prev, used, out, moved)
  {
    var i := FindKey(m, order, es, k);
    out, moved := FrontOrder(order, i), ToFront(es, i);
    if i == 0 {
      assert ToFront(es, 0) == es;
    } else {
      assert order[0] != order[i];
      RelinkedTail(m, order, i);
      Relinking(m, order, es, i);
      ToFrontBytes(es, i);
    }
  }

  // ----- the pool

  class LruPool {
    var nodes: Nodes
    var head: Option<BlockKey>
    var tail: Option<BlockKey>
    var usedBytes: nat
    const maxBytes: nat
    const blockType: BlockType
    ghost var order: seq<BlockKey>
    // The pool's entries, most recently used first.
    ghost var entries: Entries

    ghost predicate Valid()
      reads this
    {
      Pooled(nodes, head, tail, usedBytes, order, entries)
    }

    constructor (maxBytes: nat, blockType: BlockType)
      ensures Valid() && entries == []
      ensures this.maxBytes == maxBytes && this.blockType == blockType
    {
      nodes, head, tail, usedBytes := map[], None, None, 0;
      this.maxBytes, this.blockType := maxBytes, blockType;
      order, entries := [], [];
    }

    // Takes a node out of its place and puts it before the head.
    method Relink(k: BlockKey)
      requires k in nodes
      modifies this`nodes, this`tail
      ensures nodes == Relinked(old(nodes), k, head)
      ensures tail == if old(nodes)[k].next.Some? then old(tail) else old(nodes)[k].prev
    {
      var prev, next := nodes[k].prev, nodes[k].next;
      nodes := SetNext(nodes, prev, next);
      if next.Some? {
        nodes := SetPrev(nodes, next, prev);
      } else {
        tail := prev;
      }
      nodes := SetPrev(nodes, head, Some(k));
      nodes := SetFront(nodes, k, head);
    }

    method MoveToHead(k: BlockKey)
      requires Valid() && k in nodes
      modifies this
      ensures Valid()
      ensures entries == AfterGet(old(entries), k)
    {
      ghost var out, moved := Moving(nodes, head, tail, usedBytes, order, entries, k);
      if head == Some(k) { return; }
      Relink(k);
      head := Some(k);
      order, entries := out, moved;
    }

    method Get(k: BlockKey) returns (r: Option<Bytes>)
      requires Valid()
      modifies this
      ensures Valid()
      ensures entries == AfterGet(old(entries), k)
      ensures r.Some? <==> Find(old(entries), k).Some?
      ensures r.Some? ==> r.value == old(entries)[Find(old(entries), k).value].value
    {
      ghost var i := FindKey(nodes, order, entries, k);
      if k in nodes {
        MoveToHead(k);
        i := FindKey(nodes, order, entries, k);
        r := Some(nodes[k].value);
      } else {
        r := None;
      }
    }

    method Reprieve(k: BlockKey)
      requires Valid() && tail == Some(k) && k in nodes && nodes[k].resist > 0
      modifies this
      ensures Valid()
      ensures entries == AfterEvictAttempt(old(entries), true)
    {
      ghost var last := |order| - 1;
      ghost var i := FindKey(nodes, order, entries, k);
      assert i == last;
      var tired := nodes[k].(resist := nodes[k].resist - 1);
      Rewriting(nodes, order, entries, last, tired);
      RewrittenBytes(entries, last, Entry(k, tired.value, tired.resist));
      nodes := nodes[k := tired];
      entries := entries[last := Entry(k, tired.value, tired.resist)];
      i := FindKey(nodes, order, entries, k);
      ghost var after := entries;
      MoveToHead(k);
      assert ToFront(after, last) == [after[last]] + old(entries)[..last];
    }

    method Unlink()
      requires tail.Some? && tail.value in nodes && |nodes[tail.value].value| <= usedBytes
      modifies this`nodes, this`head, this`tail, this`usedBytes
      ensures var node := old(nodes)[old(tail).value];
        && nodes == SetNext(old(nodes) - {old(tail).value}, node.prev, None)
        && usedBytes == old(usedBytes) - |node.value|
        && tail == node.prev && head == if node.prev.Some? then old(head) else None
    {
      var k := tail.value;
      var node := nodes[k];
      nodes := nodes - {k};
      usedBytes := usedBytes - |node.value|;
      tail := node.prev;
      if tail.Some? {
        nodes := SetNext(nodes, tail, None);
      } else {
        head := None;
      }
    }

    method RemoveTail()
      requires Valid() && entries != []
      modifies this
      ensures Valid()
      ensures entries == old(entries)[..|old(entries)| - 1]
    {
      ghost var last := |order| - 1;
      assert EntryAt(nodes, order, entries, last) && LinkAt(nodes, order, last);
      Removing(nodes, order, entries);
      SumsLast(entries);
      Unlink();
      order, entries := order[..last], entries[..last];
    }

    method TryEvictTail()
      requires Valid()
      modifies this
      ensures Valid()
      ensures entries == AfterEvictAttempt(old(entries), blockType == Filter)
    {
      if tail.None? { return; }
      var k := tail.value;
      assert EntryAt(nodes, order, entries, |order| - 1);
      if blockType == Filter && nodes[k].resist > 0 {
        Reprieve(k);
      } else {
        RemoveTail();
      }
    }

    method Overwrite(k: BlockKey, value: Bytes)
      requires Valid() && k in nodes
      modifies this
      ensures Valid()
      ensures entries == AfterInsert(old(entries), k, value, maxBytes, blockType == Filter)
    {
      ghost var i := FindKey(nodes, order, entries, k);
      var node := nodes[k].(value := value);
      ghost var e := Entry(k, value, node.resist);
      Rewriting(nodes, order, entries, i, node);
      RewrittenBytes(entries, i, e);
      usedBytes := usedBytes - |nodes[k].value|;
      nodes := nodes[k := node];
      usedBytes := usedBytes + |value|;
      entries := entries[i := e];
      i := FindKey(nodes, order, entries, k);
      MoveToHead(k);
    }

    method Push(k: BlockKey, value: Bytes)
      requires Valid() && k !in nodes
      modifies this
      ensures Valid()
      ensures entries == [Entry(k, value, if blockType == Filter then FILTER_RESIST_COUNT else 0)] + old(entries)
    {
      var resist := if blockType == Filter then FILTER_RESIST_COUNT else 0;
      Pushing(nodes, order, entries, k, value, resist);
      SumsAppend([Entry(k, value, resist)], entries);
      var node := Node(value, resist, None, head);
      if head.Some? {
        nodes := SetPrev(nodes, head, Some(k));
      } else {
        tail := Some(k);
      }
      head := Some(k);
      usedBytes := usedBytes + |value|;
      nodes := nodes[k := node];
      order, entries := [k] + order, [Entry(k, value, resist)] + entries;
    }

    method Insert(k: BlockKey, value: Bytes)
      requires Valid()
      modifies this
      ensures Valid()
      ensures entries == AfterInsert(old(entries), k, value, maxBytes, blockType == Filter)
    {
      ghost var i := FindKey(nodes, order, entries, k);
      if k in nodes {
        Overwrite(k, value);
        return;
      }
      while usedBytes + |value| > maxBytes && tail.Some?
        invariant Valid() && Find(entries, k).None?
        invariant AfterEvictions(entries, |value|, maxBytes, blockType == Filter)
               == AfterEvictions(old(entries), |value|, maxBytes, blockType == Filter)
        decreases Stamina(entries)
      {
        AttemptTires(entries, blockType == Filter);
        AttemptKeys(entries, blockType == Filter, k);
        TryEvictTail();
      }
      i := FindKey(nodes, order, entries, k);
      Push(k, value);
    }
  }

  // ----- what eviction removes

  // Without resistance, making room removes exactly the shortest suffix of
  // least recently used entries that suffices, or everything.
  lemma {:induction false} EvictsShortestSuffix(es: Entries, size: nat, maxBytes: nat)
    ensures var out := AfterEvictions(es, size, maxBytes, false);
      && out <= es
      && (out == [] || TotalBytes(out) + size <= maxBytes)
      && forall m :: |out| < m <= |es| ==> TotalBytes(es[..m]) + size > maxBytes
    decreases |es|
  {
    if TotalBytes(es) + size > maxBytes && es != [] {
      var rest := es[..|es| - 1];
      EvictsShortestSuffix(rest, size, maxBytes);
      var out := AfterEvictions(rest, size, maxBytes, false);
      assert es[..|es|] == es;
      forall m | |out| < m <= |es| ensures TotalBytes(es[..m]) + size > maxBytes {
        if m < |es| { assert es[..m] == rest[..m]; }
      }
    } else {
      assert es[..|es|] == es;
    }
  }

  lemma {:induction false} EvictionsEnd(es: Entries, size: nat, maxBytes: nat, resists: bool)
    ensures var out := AfterEvictions(es, size, maxBytes, resists);
      out == [] || TotalBytes(out) + size <= maxBytes
    decreases Stamina(es)
  {
    if TotalBytes(es) + size > maxBytes && es != [] {
      AttemptTires(es, resists);
      EvictionsEnd(AfterEvictAttempt(es, resists), size, maxBytes, resists);
    }
  }

  // After inserting a new block the pool is within its limit if and only if the
  // block itself fits; an oversized block is kept alone. Overwriting evicts
  // nothing, so there the new total decides.
  lemma InsertBound(es: Entries, k: BlockKey, value: Bytes, maxBytes: nat, resists: bool)
    ensures var out, r := AfterInsert(es, k, value, maxBytes, resists), Find(es, k);
      && (r.None? ==> (TotalBytes(out) <= maxBytes <==> |value| <= maxBytes))
      && (r.None? && |value| > maxBytes ==> |out| == 1)
      && (r.Some? ==> TotalBytes(out) == TotalBytes(es) - |es[r.value].value| + |value| && |out| == |es|)
  {
    var r := Find(es, k);
    if r.None? {
      EvictionsEnd(es, |value|, maxBytes, resists);
      var e := Entry(k, value, if resists then FILTER_RESIST_COUNT else 0);
      SumsAppend([e], AfterEvictions(es, |value|, maxBytes, resists));
    } else {
      var e := es[r.value].(value := value);
      RewrittenBytes(es, r.value, e);
      ToFrontBytes(es[r.value := e], r.value);
    }
  }

  // ----- resistance over whole runs

  datatype Op = GetOp(k: BlockKey) | InsertOp(k: BlockKey, value: Bytes)

  // `Used` is a hit or an overwrite.
  datatype Event = Inserted(k: BlockKey) | Used(k: BlockKey) | Reprieved(k: BlockKey) | Evicted(k: BlockKey)

  function AttemptEvent(es: Entries, resists: bool): Event
    requires es != []
  {
    var e := es[|es| - 1];
    if resists && e.resist > 0 then Reprieved(e.key) else Evicted(e.key)
  }

  function EvictionEvents(es: Entries, size: nat, maxBytes: nat, resists: bool): seq<Event>
    decreases Stamina(es)
  {
    if TotalBytes(es) + size > maxBytes && es != [] then
      AttemptTires(es, resists);
      [AttemptEvent(es, resists)] + EvictionEvents(AfterEvictAttempt(es, resists), size, maxBytes, resists)
    else []
  }

  function AfterOp(es: Entries, op: Op, maxBytes: nat, resists: bool): Entries {
    match op
    case GetOp(k) => AfterGet(es, k)
    case InsertOp(k, value) => AfterInsert(es, k, value, maxBytes, resists)
  }

  function OpEvents(es: Entries, op: Op, maxBytes: nat, resists: bool): seq<Event> {
    if Find(es, op.k).Some? then [Used(op.k)]
    else
      match op
      case GetOp(_) => []
      case InsertOp(k, value) => EvictionEvents(es, |value|, maxBytes, resists) + [Inserted(k)]
  }

  // The entries and the events of a pool after a run of operations.
  function RunEntries(ops: seq<Op>, maxBytes: nat, resists: bool): Entries {
    if ops == [] then [] else AfterOp(RunEntries(ops[..|ops| - 1], maxBytes, resists), ops[|ops| - 1], maxBytes, resists)
  }

  function RunEvents(ops: seq<Op>, maxBytes: nat, resists: bool): seq<Event> {
    if ops == [] then []
    else
      var before := ops[..|ops| - 1];
      RunEvents(before, maxBytes, resists) + OpEvents(RunEntries(before, maxBytes, resists), ops[|ops| - 1], maxBytes, resists)
  }

  // How often the block was reprieved since it was last inserted.
  function Reprieves(log: seq<Event>, k: BlockKey): nat {
    if log == [] then 0
    else
      var e, before := log[|log| - 1], log[..|log| - 1];
      if e == Inserted(k) then 0
      else if e == Reprieved(k) then 1 + Reprieves(before, k)
      else Reprieves(before, k)
  }

  function Quota(resists: bool): nat {
    if resists then FILTER_RESIST_COUNT else 0
  }

  ghost predicate Accounted(es: Entries, log: seq<Event>, resists: bool) {
    && DistinctKeys(es)
    && (forall i :: 0 <= i < |es| ==> es[i].resist + Reprieves(log, es[i].key) == Quota(resists))
    && (forall i {:trigger log[i]} :: 0 <= i < |log| && log[i].Evicted? ==> Reprieves(log[..i], log[i].k) == Quota(resists))
  }

  lemma AccountedStep(es: Entries, log: seq<Event>, resists: bool, e: Event, out: Entries)
    requires Accounted(es, log, resists) && DistinctKeys(out)
    requires e.Evicted? ==> Reprieves(log, e.k) == Quota(resists)
    requires forall i :: 0 <= i < |out| ==> out[i].resist + Reprieves(log + [e], out[i].key) == Quota(resists)
    ensures Accounted(out, log + [e], resists)
  {
    var log' := log + [e];
    forall i | 0 <= i < |log'| && log'[i].Evicted? ensures Reprieves(log'[..i], log'[i].k) == Quota(resists) {
      if i < |log| { assert log'[..i] == log[..i]; } else { assert log'[..i] == log; }
    }
  }

  lemma ReprievesSnoc(log: seq<Event>, e: Event, k: BlockKey)
    ensures Reprieves(log + [e], k) == if e == Inserted(k) then 0 else if e == Reprieved(k) then 1 + Reprieves(log, k) else Reprieves(log, k)
  {
    assert (log + [e])[..|log|] == log;
  }

  lemma AttemptAccounted(es: Entries, log: seq<Event>, resists: bool)
    requires Accounted(es, log, resists) && es != []
    ensures Accounted(AfterEvictAttempt(es, resists), log + [AttemptEvent(es, resists)], resists)
  {
    var out, e, last := AfterEvictAttempt(es, resists), AttemptEvent(es, resists), |es| - 1;
    forall i | 0 <= i < |out| ensures out[i].resist + Reprieves(log + [e], out[i].key) == Quota(resists) {
      ReprievesSnoc(log, e, out[i].key);
    }
    AccountedStep(es, log, resists, e, out);
  }

  lemma {:induction false} EvictionsAccounted(es: Entries, log: seq<Event>, size: nat, maxBytes: nat, resists: bool)
    requires Accounted(es, log, resists)
    ensures Accounted(AfterEvictions(es, size, maxBytes, resists), log + EvictionEvents(es, size, maxBytes, resists), resists)
    decreases Stamina(es)
  {
    if TotalBytes(es) + size > maxBytes && es != [] {
      AttemptTires(es, resists);
      AttemptAccounted(es, log, resists);
      var rest, e := AfterEvictAttempt(es, resists), AttemptEvent(es, resists);
      EvictionsAccounted(rest, log + [e], size, maxBytes, resists);
      Regroup(log, [e], EvictionEvents(rest, size, maxBytes, resists));
    } else {
      assert log + [] == log;
    }
  }

  lemma {:induction false} EvictionsKeepAbsent(es: Entries, size: nat, maxBytes: nat, resists: bool, k: BlockKey)
    requires Find(es, k).None?
    ensures Find(AfterEvictions(es, size, maxBytes, resists), k).None?
    decreases Stamina(es)
  {
    if TotalBytes(es) + size > maxBytes && es != [] {
      AttemptTires(es, resists);
      AttemptKeys(es, resists, k);
      EvictionsKeepAbsent(AfterEvictAttempt(es, resists), size, maxBytes, resists, k);
    }
  }

  lemma ToFrontAccounted(es: Entries, log: seq<Event>, resists: bool, i: nat, e: Entry)
    requires Accounted(es, log, resists) && i < |es| && e.key == es[i].key && e.resist == es[i].resist
    ensures Accounted(ToFront(es[i := e], i), log + [Used(e.key)], resists)
  {
    var out := ToFront(es[i := e], i);
    forall j | 0 <= j < |out|
      ensures out[j].key == es[if j == 0 then i else if j <= i then j - 1 else j].key
      ensures out[j].resist == es[if j == 0 then i else if j <= i then j - 1 else j].resist
    {
    }
    forall j | 0 <= j < |out| ensures out[j].resist + Reprieves(log + [Used(e.key)], out[j].key) == Quota(resists) {
      ReprievesSnoc(log, Used(e.key), out[j].key);
    }
    AccountedStep(es, log, resists, Used(e.key), out);
  }

  lemma OpAccounted(es: Entries, log: seq<Event>, op: Op, maxBytes: nat, resists: bool)
    requires Accounted(es, log, resists)
    ensures Accounted(AfterOp(es, op, maxBytes, resists), log + OpEvents(es, op, maxBytes, resists), resists)
  {
    var r := Find(es, op.k);
    assert log + [] == log;
    match op
    case GetOp(k) =>
      if r.Some? {
        assert es[r.value := es[r.value]] == es;
        ToFrontAccounted(es, log, resists, r.value, es[r.value]);
      }
    case InsertOp(k, value) =>
      if r.Some? {
        ToFrontAccounted(es, log, resists, r.value, es[r.value].(value := value));
      } else {
        EvictionsAccounted(es, log, |value|, maxBytes, resists);
        EvictionsKeepAbsent(es, |value|, maxBytes, resists, k);
        InsertAccounted(AfterEvictions(es, |value|, maxBytes, resists), log + EvictionEvents(es, |value|, maxBytes, resists), resists, k, value);
        assert log + (EvictionEvents(es, |value|, maxBytes, resists) + [Inserted(k)])
            == (log + EvictionEvents(es, |value|, maxBytes, resists)) + [Inserted(k)];
      }
  }

  lemma InsertAccounted(es: Entries, log: seq<Event>, resists: bool, k: BlockKey, value: Bytes)
    requires Accounted(es, log, resists) && Find(es, k).None?
    ensures Accounted([Entry(k, value, Quota(resists))] + es, log + [Inserted(k)], resists)
  {
    var out := [Entry(k, value, Quota(resists))] + es;
    forall i | 0 <= i < |out| ensures out[i].resist + Reprieves(log + [Inserted(k)], out[i].key) == Quota(resists) {
      ReprievesSnoc(log, Inserted(k), out[i].key);
    }
    AccountedStep(es, log, resists, Inserted(k), out);
  }

  // In every run, a block leaves the filter pool only after exactly three
  // reprieves since it came in; the other pools grant none. Keys stay distinct.
  lemma {:induction false} RunReprieves(ops: seq<Op>, maxBytes: nat, resists: bool)
    ensures DistinctKeys(RunEntries(ops, maxBytes, resists))
    ensures var log := RunEvents(ops, maxBytes, resists);
      forall i :: 0 <= i < |log| && log[i].Evicted? ==>
        Reprieves(log[..i], log[i].k) == if resists then 3 else 0
    ensures Accounted(RunEntries(ops, maxBytes, resists), RunEvents(ops, maxBytes, resists), resists)
  {
    if ops != [] {
      var before := ops[..|ops| - 1];
      RunReprieves(before, maxBytes, resists);
      OpAccounted(RunEntries(before, maxBytes, resists), RunEvents(before, maxBytes, resists), ops[|ops| - 1], maxBytes, resists);
    }
  }

  // Driving a fresh pool through any run of operations keeps the links a
  // single well-formed list and yields the entries of the specification.
  method RunPool(ops: seq<Op>, maxBytes: nat, blockType: BlockType) returns (pool: LruPool)
    ensures fresh(pool) && pool.Valid()
    ensures pool.entries == RunEntries(ops, maxBytes, blockType == Filter)
  {
    pool := new LruPool(maxBytes, blockType);
    for n := 0 to |ops|
      invariant fresh(pool) && pool.Valid() && pool.maxBytes == maxBytes && pool.blockType == blockType
      invariant pool.entries == RunEntries(ops[..n], maxBytes, blockType == Filter)
    {
      assert ops[..n + 1][..n] == ops[..n];
      match ops[n] {
        case GetOp(k) => var _ := pool.Get(k);
        case InsertOp(k, value) => pool.Insert(k, value);
      }
    }
    assert ops[..|ops|] == ops;
  }

  // ----- the three pools

  class BlockCacheInner {
    const dataPool: LruPool
    const filterPool: LruPool
    const indexPool: LruPool
    const totalMax: nat

    ghost predicate Valid()
      reads this, dataPool, filterPool, indexPool
    {
      && dataPool != filterPool && dataPool != indexPool && filterPool != indexPool
      && dataPool.Valid() && filterPool.Valid() && indexPool.Valid()
      && dataPool.blockType == Data && filterPool.blockType == Filter && indexPool.blockType == Index
      && dataPool.maxBytes + filterPool.maxBytes + indexPool.maxBytes == totalMax
    }

    // The pools take 70%, 20% and the remainder of the budget.
    constructor (totalMax: nat)
      ensures Valid() && this.totalMax == totalMax
      ensures dataPool.maxBytes == totalMax * 70 / 100 && filterPool.maxBytes == totalMax * 20 / 100
      ensures dataPool.entries == [] && filterPool.entries == [] && indexPool.entries == []
      ensures fresh(dataPool) && fresh(filterPool) && fresh(indexPool)
    {
      var dataMax := totalMax * 70 / 100;
      var filterMax := totalMax * 20 / 100;
      dataPool := new LruPool(dataMax, Data);
      filterPool := new LruPool(filterMax, Filter);
      indexPool := new LruPool(totalMax - dataMax - filterMax, Index);
      this.totalMax := totalMax;
    }

    // Each pool holds the blocks of its type.
    function PoolFor(t: BlockType): (pool: LruPool)
      ensures dataPool.blockType == Data && filterPool.blockType == Filter && indexPool.blockType == Index ==> pool.blockType == t
    {
      match t
      case Data => dataPool
      case Filter => filterPool
      case Index => indexPool
    }

    // Only the pool of the key's type is touched.
    method Get(k: BlockKey) returns (r: Option<Bytes>)
      requires Valid()
      modifies PoolFor(k.blockType)
      ensures Valid()
      ensures PoolFor(k.blockType).entries == AfterGet(old(PoolFor(k.blockType).entries), k)
      ensures var es := old(PoolFor(k.blockType).entries);
        (r.Some? <==> Find(es, k).Some?) && (r.Some? ==> r.value == es[Find(es, k).value].value)
    {
      r := PoolFor(k.blockType).Get(k);
    }

    method Insert(k: BlockKey, value: Bytes)
      requires Valid()
      modifies PoolFor(k.blockType)
      ensures Valid()
      ensures PoolFor(k.blockType).entries
           == AfterInsert(old(PoolFor(k.blockType).entries), k, value, PoolFor(k.blockType).maxBytes, k.blockType == Filter)
    {
      PoolFor(k.blockType).Insert(k, value);
    }

    method UsedBytes() returns (n: nat)
      requires Valid()
      ensures n == TotalBytes(dataPool.entries) + TotalBytes(filterPool.entries) + TotalBytes(indexPool.entries)
    {
      n := dataPool.usedBytes + filterPool.usedBytes + indexPool.usedBytes;
    }
  }
}
