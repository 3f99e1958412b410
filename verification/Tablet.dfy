// Placing a partition's buckets on storage nodes round-robin, and routing a
// hash to its tablet.
module Tablet {
  import opened Common
  import opened Sorting

  datatype TabletInfo = TabletInfo(id: nat, cube: string, partition: string, bucket: nat, nodes: seq<int>, leader: int)

  // ----- placement

  function Replicas(replication: nat, n: nat): nat {
    if replication < n then replication else n
  }

  // The nodes of one bucket.
  function Placement(nodes: seq<int>, rep: nat, bucket: nat): (r: seq<int>)
    requires rep <= |nodes|
    ensures |r| == rep
  {
    var start := (bucket * rep) % (if |nodes| == 0 then 1 else |nodes|);
    seq(rep, i requires 0 <= i < rep => nodes[(start + i) % |nodes|])
  }

  ghost predicate Distinct<T>(s: seq<T>) {
    forall i, j :: 0 <= i < j < |s| ==> s[i] != s[j]
  }

  lemma MulStep(q: int, p: int, n: nat)
    requires q < p
    ensures q * n + n <= p * n
  {
    var d := p - q - 1;
    assert (q + 1 + d) * n == q * n + n + d * n;
  }

  lemma DivModUnique(k: nat, n: nat, q: nat, r: nat)
    requires n > 0 && k == q * n + r && r < n
    ensures k / n == q && k % n == r
  {
    var p, s := k / n, k % n;
    assert k == p * n + s;
    if p < q { MulStep(p, q, n); }
    if q < p { MulStep(q, p, n); }
  }

  lemma ModAdd(x: nat, q: nat, n: nat)
    requires n > 0
    ensures (x + q * n) % n == x % n
  {
    var p, r := x / n, x % n;
    assert x == p * n + r;
    assert (p + q) * n == p * n + q * n;
    DivModUnique(x + q * n, n, p + q, r);
  }

  lemma ModShift(a: nat, i: nat, n: nat)
    requires n > 0
    ensures (a % n + i) % n == (a + i) % n
  {
    var q := a / n;
    assert a == q * n + a % n;
    ModAdd(a % n + i, q, n);
  }

  // Replica `i` of bucket `b` is at place `b * rep + i` of the round.
  lemma PlacementAt(nodes: seq<int>, rep: nat, bucket: nat, i: nat)
    requires i < rep <= |nodes|
    ensures Placement(nodes, rep, bucket)[i] == nodes[(bucket * rep + i) % |nodes|]
  {
    ModShift(bucket * rep, i, |nodes|);
  }

  lemma NearbyPlacesDiffer(a: nat, i: nat, j: nat, n: nat)
    requires i < j < i + n
    ensures (a + i) % n != (a + j) % n
  {
    var q, p := (a + i) / n, (a + j) / n;
    assert a + i == q * n + (a + i) % n && a + j == p * n + (a + j) % n;
    if q < p { MulStep(q, p, n); }
    if p < q { MulStep(p, q, n); }
  }

  // A bucket's replicas are on distinct nodes.
  lemma ReplicasDistinct(nodes: seq<int>, rep: nat, bucket: nat)
    requires rep <= |nodes| && Distinct(nodes)
    ensures Distinct(Placement(nodes, rep, bucket))
  {
    var r := Placement(nodes, rep, bucket);
    forall i | 0 <= i < |r| ensures r[i] == nodes[(bucket * rep + i) % |nodes|] {
      PlacementAt(nodes, rep, bucket, i);
    }
    PlacesDiffer(nodes, bucket * rep, r);
  }

  lemma PlacesDiffer(nodes: seq<int>, a: nat, r: seq<int>)
    requires |r| <= |nodes| && Distinct(nodes) && forall i :: 0 <= i < |r| ==> r[i] == nodes[(a + i) % |nodes|]
    ensures Distinct(r)
  {
    forall i, j | 0 <= i < j < |r| ensures r[i] != r[j] {
      var x, y := (a + i) % |nodes|, (a + j) % |nodes|;
      NearbyPlacesDiffer(a, i, j, |nodes|);
      assert nodes[x] != nodes[y];
    }
  }

  // ----- balance

  // All buckets' replicas, in order.
  function AllReplicas(nodes: seq<int>, rep: nat, buckets: nat): seq<int>
    requires rep <= |nodes|
  {
    if buckets == 0 then [] else AllReplicas(nodes, rep, buckets - 1) + Placement(nodes, rep, buckets - 1)
  }

  // The first `k` places of the round.
  function Places(nodes: seq<int>, k: nat): seq<int>
    requires k > 0 ==> nodes != []
  {
    seq(k, p requires 0 <= p < k => nodes[p % |nodes|])
  }

  lemma {:induction false} ReplicasAreRound(nodes: seq<int>, rep: nat, buckets: nat)
    requires rep <= |nodes| && nodes != []
    ensures AllReplicas(nodes, rep, buckets) == Places(nodes, buckets * rep)
  {
    if buckets > 0 {
      var b := buckets - 1;
      ReplicasAreRound(nodes, rep, b);
      assert buckets * rep == b * rep + rep;
      forall i | 0 <= i < rep ensures Placement(nodes, rep, b)[i] == nodes[(b * rep + i) % |nodes|] {
        PlacementAt(nodes, rep, b, i);
      }
      assert AllReplicas(nodes, rep, buckets) == Places(nodes, b * rep) + Placement(nodes, rep, b);
    }
  }

  function Count<T(==)>(s: seq<T>, x: T): nat {
    if s == [] then 0 else Count(s[..|s| - 1], x) + if s[|s| - 1] == x then 1 else 0
  }

  lemma NextDivMod(k: nat, n: nat)
    requires n > 0
    ensures (k + 1) / n == k / n + (if k % n == n - 1 then 1 else 0)
    ensures (k + 1) % n == if k % n == n - 1 then 0 else k % n + 1
  {
    var q, r := k / n, k % n;
    assert k == q * n + r;
    if r == n - 1 {
      assert (q + 1) * n == q * n + n;
      DivModUnique(k + 1, n, q + 1, 0);
    } else {
      DivModUnique(k + 1, n, q, r + 1);
    }
  }

  // After `k` places node `x` has been used `k / n` times, and once more if the
  // current round has passed it.
  lemma {:induction false} RoundCounts(nodes: seq<int>, k: nat, x: nat)
    requires Distinct(nodes) && x < |nodes|
    ensures Count(Places(nodes, k), nodes[x]) == k / |nodes| + if x < k % |nodes| then 1 else 0
  {
    if k > 0 {
      var p := k - 1;
      RoundCounts(nodes, p, x);
      NextDivMod(p, |nodes|);
      assert Places(nodes, k)[..p] == Places(nodes, p);
      var y := p % |nodes|;
      assert nodes[y] == nodes[x] <==> x == y;
    } else {
      assert 0 / |nodes| == 0 && 0 % |nodes| == 0;
    }
  }

  // Over all buckets any two nodes' replica counts differ by at most one.
  lemma ReplicasBalanced(nodes: seq<int>, replication: nat, buckets: nat, x: nat, y: nat)
    requires Distinct(nodes) && x < |nodes| && y < |nodes|
    ensures var all := AllReplicas(nodes, Replicas(replication, |nodes|), buckets);
      Count(all, nodes[x]) <= Count(all, nodes[y]) + 1
  {
    var rep := Replicas(replication, |nodes|);
    ReplicasAreRound(nodes, rep, buckets);
    RoundCounts(nodes, buckets * rep, x);
    RoundCounts(nodes, buckets * rep, y);
  }

  // Leaders are not balanced: with at least two buckets, all tablets get the
  // same leader if and only if every node holds a replica.
  lemma LeadersExact(nodes: seq<int>, replication: nat, buckets: nat)
    requires Distinct(nodes) && nodes != [] && replication > 0 && buckets >= 2
    ensures var rep := Replicas(replication, |nodes|);
      (forall b :: 0 <= b < buckets ==> Placement(nodes, rep, b)[0] == nodes[0]) <==> replication >= |nodes|
  {
    var n, rep := |nodes|, Replicas(replication, |nodes|);
    if replication >= n {
      forall b | 0 <= b < buckets ensures Placement(nodes, rep, b)[0] == nodes[0] {
        PlacementAt(nodes, rep, b, 0);
        ModAdd(0, b, n);
      }
    } else {
      PlacementAt(nodes, rep, 1, 0);
      DivModUnique(rep, n, 0, rep);
      assert Placement(nodes, rep, 1)[0] == nodes[rep];
    }
  }

  // ----- which nodes lead

  function Gcd(a: nat, b: nat): nat
    decreases b
  {
    if b == 0 then a else Gcd(b, a % b)
  }

  lemma SumOfMultiples(g: int, d: int, p: int, q: int)
    ensures d * (g * p) + g * q == g * (d * p + q)
  {
    assert d * (g * p) == g * (d * p);
  }

  lemma {:induction false} GcdFactors(a: nat, b: nat) returns (p: nat, q: nat)
    ensures a == Gcd(a, b) * p && b == Gcd(a, b) * q
    ensures a > 0 || b > 0 ==> Gcd(a, b) > 0
    decreases b
  {
    if b == 0 {
      p, q := 1, 0;
    } else {
      var g, d := Gcd(a, b), a / b;
      var p', q' := GcdFactors(b, a % b);
      assert a == d * b + a % b;
      SumOfMultiples(g, d, p', q');
      p, q := d * p' + q', p';
    }
  }

  lemma BezoutStep(a: int, b: int, d: int, r: int, x: int, y: int)
    requires a == d * b + r
    ensures a * y + b * (x - d * y) == b * x + r * y
  {
    assert (d * b + r) * y == d * b * y + r * y;
    assert b * (x - d * y) == b * x - b * (d * y);
    assert b * (d * y) == d * b * y;
  }

  lemma {:induction false} Bezout(a: nat, b: nat) returns (x: int, y: int)
    ensures a * x + b * y == Gcd(a, b)
    decreases b
  {
    if b == 0 {
      x, y := 1, 0;
    } else {
      var x', y' := Bezout(b, a % b);
      assert a == a / b * b + a % b;
      BezoutStep(a, b, a / b, a % b, x', y');
      x, y := y', x' - a / b * y';
    }
  }

  // Bucket `b` is led by the node at place `b * rep`.
  predicate Leads(nodes: seq<int>, rep: nat, b: nat, k: nat)
    requires 0 < rep <= |nodes| && k < |nodes|
  {
    Placement(nodes, rep, b)[0] == nodes[k]
  }

  lemma LeaderPlace(nodes: seq<int>, rep: nat, b: nat, k: nat)
    requires Distinct(nodes) && 0 < rep <= |nodes| && k < |nodes|
    ensures Leads(nodes, rep, b, k) <==> (b * rep) % |nodes| == k
  {
    var at := (b * rep) % |nodes|;
    PlacementAt(nodes, rep, b, 0);
    assert nodes[at] == nodes[k] <==> at == k;
  }

  lemma FactorOut(g: int, b: int, r: int, z: int, n: int)
    ensures b * (g * r) - z * (g * n) == g * (b * r - z * n)
  {
    assert b * (g * r) == g * (b * r) && z * (g * n) == g * (z * n);
    assert g * (b * r - z * n) == g * (b * r) - g * (z * n);
  }

  lemma MultipleMod(g: nat, t: int)
    requires g > 0 && g * t >= 0
    ensures (g * t) % g == 0
  {
    assert t >= 0 by { if t < 0 { MulStep(t, 0, g); } }
    ModAdd(0, t, g);
    assert t * g == g * t;
  }

  lemma PlaceFactor(g: nat, rep: nat, n: nat, r: nat, m: nat, b: nat, z: int, k: nat)
    requires g > 0 && rep == g * r && n == g * m && b * rep == z * n + k
    ensures k % g == 0
  {
    FactorOut(g, b, r, z, m);
    MultipleMod(g, b * r - z * m);
  }

  lemma PlaceFrom(b: nat, rep: nat, n: nat, z: int, k: nat)
    requires k < n && b * rep == z * n + k
    ensures (b * rep) % n == k
  {
    assert b * rep >= 0;
    assert z >= 0 by { if z < 0 { MulStep(z, 0, n); } }
    DivModUnique(b * rep, n, z, k);
  }

  lemma PlaceIsMultiple(rep: nat, n: nat, b: nat)
    requires n > 0 && Gcd(rep, n) > 0
    ensures (b * rep) % n % Gcd(rep, n) == 0
  {
    var g, z := Gcd(rep, n), b * rep / n;
    var r, m := GcdFactors(rep, n);
    assert b * rep == z * n + (b * rep) % n;
    PlaceFactor(g, rep, n, r, m, b, z, (b * rep) % n);
  }

  // Places of buckets that differ by a full turn agree.
  lemma TurnBack(rep: int, n: int, r: int, m: int, c: int, y: int, t: int, b: int, g: int, k: int)
    requires rep == g * r && n == g * m && k == rep * c + n * y && c == t * m + b
    ensures b * rep == (0 - (y + t * r)) * n + k
  {
    assert rep * c == rep * (t * m) + rep * b;
    assert rep * (t * m) == g * r * t * m == t * r * (g * m);
    assert (0 - (y + t * r)) * n == 0 - y * n - t * r * n;
    assert n * y == y * n && rep * b == b * rep;
  }

  lemma ScaleUp(rep: int, n: int, x: int, y: int, g: int, j: int)
    requires rep * x + n * y == g
    ensures rep * (j * x) + n * (j * y) == j * g
  {
    assert rep * (j * x) == j * (rep * x) && n * (j * y) == j * (n * y);
    assert j * (rep * x + n * y) == j * (rep * x) + j * (n * y);
  }

  lemma BucketFor(rep: nat, n: nat, g: nat, r: nat, m: nat, k: nat, c: int, y: int) returns (b: nat)
    requires rep == g * r && n == g * m && m > 0 && k < n && k == rep * c + n * y
    ensures (b * rep) % n == k && b < m
  {
    var t := c / m;
    b := c % m;
    assert c == t * m + b;
    TurnBack(rep, n, r, m, c, y, t, b, g, k);
    PlaceFrom(b, rep, n, 0 - (y + t * r), k);
  }

  lemma BelowTurn(b: nat, m: nat, g: nat, n: nat)
    requires n == g * m && b < m && g > 0
    ensures b * g < n
  {
    MulStep(b, m, g);
    assert m * g == g * m;
  }

  lemma MultipleIsPlace(rep: nat, n: nat, k: nat) returns (b: nat)
    requires n > 0 && k < n && Gcd(rep, n) > 0 && k % Gcd(rep, n) == 0
    ensures (b * rep) % n == k && b * Gcd(rep, n) < n
  {
    var g := Gcd(rep, n);
    var r, m := GcdFactors(rep, n);
    var x, y := Bezout(rep, n);
    var j := k / g;
    assert k == j * g && m > 0;
    ScaleUp(rep, n, x, y, g, j);
    b := BucketFor(rep, n, g, r, m, k, j * x, j * y);
    BelowTurn(b, m, g, n);
  }

  lemma FewerBuckets(b: nat, buckets: nat, g: nat)
    requires b * g < buckets * g
    ensures b < buckets
  {
    assert b * g == buckets * g + (b - buckets) * g;
    assert b >= buckets ==> (b - buckets) * g >= 0;
  }

  lemma SomeBucket(nodes: seq<int>, rep: nat, buckets: nat, k: nat) returns (b: nat)
    requires Distinct(nodes) && 0 < rep <= |nodes| && k < |nodes| && Gcd(rep, |nodes|) > 0 && k % Gcd(rep, |nodes|) == 0
    requires buckets * Gcd(rep, |nodes|) >= |nodes|
    ensures b < buckets && Leads(nodes, rep, b, k)
  {
    b := MultipleIsPlace(rep, |nodes|, k);
    LeaderPlace(nodes, rep, b, k);
    FewerBuckets(b, buckets, Gcd(rep, |nodes|));
  }

  lemma GcdPositive(a: nat, b: nat)
    requires a > 0 || b > 0
    ensures Gcd(a, b) > 0
  {
    var p, q := GcdFactors(a, b);
  }

  // With enough buckets the nodes that lead one are exactly those whose place is
  // a multiple of the greatest common divisor of the replica and node counts.
  lemma LeadersAre(nodes: seq<int>, rep: nat, buckets: nat, k: nat)
    requires Distinct(nodes) && 0 < rep <= |nodes| && k < |nodes| && buckets * Gcd(rep, |nodes|) >= |nodes|
    ensures Gcd(rep, |nodes|) > 0
    ensures (exists b :: 0 <= b < buckets && Leads(nodes, rep, b, k)) <==> k % Gcd(rep, |nodes|) == 0
  {
    GcdPositive(rep, |nodes|);
    if b :| 0 <= b < buckets && Leads(nodes, rep, b, k) {
      LeaderPlace(nodes, rep, b, k);
      PlaceIsMultiple(rep, |nodes|, b);
    } else if k % Gcd(rep, |nodes|) == 0 {
      var b := SomeBucket(nodes, rep, buckets, k);
    }
  }

  // ----- allocation

  type Store = map<nat, TabletInfo>

  function Planned(cube: string, partition: string, nodes: seq<int>, rep: nat, ids: seq<nat>): (r: seq<TabletInfo>)
    requires 0 < rep <= |nodes|
    ensures |r| == |ids|
  {
    seq(|ids|, b requires 0 <= b < |ids| =>
      TabletInfo(ids[b], cube, partition, b, Placement(nodes, rep, b), Placement(nodes, rep, b)[0]))
  }

  function Stored(kv: Store, tablets: seq<TabletInfo>): Store {
    if tablets == [] then kv
    else
      var t := tablets[|tablets| - 1];
      Stored(kv, tablets[..|tablets| - 1])[t.id := t]
  }

  ghost predicate Fresh(kv: Store, ids: seq<nat>) {
    Distinct(ids) && forall i :: 0 <= i < |ids| ==> ids[i] !in kv
  }

  ghost predicate Holds(kv: Store, t: TabletInfo) {
    exists id :: id in kv && kv[id] == t
  }

  lemma PutHolds(kv: Store, added: TabletInfo, t: TabletInfo)
    requires added.id !in kv
    ensures Holds(kv[added.id := added], t) <==> t == added || Holds(kv, t)
  {
    var after := kv[added.id := added];
    assert after[added.id] == added;
    if Holds(kv, t) {
      var id :| id in kv && kv[id] == t;
      assert id in after && after[id] == t;
    }
  }

  lemma {:induction false} StoredIds(kv: Store, tablets: seq<TabletInfo>, id: nat)
    requires id !in kv && forall i :: 0 <= i < |tablets| ==> tablets[i].id != id
    ensures id !in Stored(kv, tablets)
  {
    if tablets != [] { StoredIds(kv, tablets[..|tablets| - 1], id); }
  }

  lemma {:induction false} StoredHolds(kv: Store, tablets: seq<TabletInfo>, t: TabletInfo)
    requires forall i :: 0 <= i < |tablets| ==> tablets[i].id !in kv
    requires forall i, j :: 0 <= i < j < |tablets| ==> tablets[i].id != tablets[j].id
    ensures Holds(Stored(kv, tablets), t) <==> t in tablets || Holds(kv, t)
  {
    if tablets != [] {
      var n := |tablets| - 1;
      StoredHolds(kv, tablets[..n], t);
      StoredIds(kv, tablets[..n], tablets[n].id);
      PutHolds(Stored(kv, tablets[..n]), tablets[n], t);
      assert t in tablets <==> t in tablets[..n] || t == tablets[n];
    }
  }

  function TabletOf(cube: string, partition: string, nodes: seq<int>, replication: nat, id: nat, bucket: nat): TabletInfo
    requires Replicas(replication, |nodes|) > 0
  {
    var place := Placement(nodes, Replicas(replication, |nodes|), bucket);
    TabletInfo(id, cube, partition, bucket, place, place[0])
  }

  // The plan for the first `b` buckets; nothing can be planned without nodes.
  function PlannedUpTo(cube: string, partition: string, nodes: seq<int>, replication: nat, ids: seq<nat>, b: nat): seq<TabletInfo>
    requires b <= |ids|
  {
    var rep := Replicas(replication, |nodes|);
    if rep == 0 then [] else Planned(cube, partition, nodes, rep, ids[..b])
  }

  lemma PlannedMore(cube: string, partition: string, nodes: seq<int>, replication: nat, ids: seq<nat>, b: nat)
    requires 0 < Replicas(replication, |nodes|) && b < |ids|
    ensures PlannedUpTo(cube, partition, nodes, replication, ids, b + 1) ==
            PlannedUpTo(cube, partition, nodes, replication, ids, b) + [TabletOf(cube, partition, nodes, replication, ids[b], b)]
  {
  }

  // Each planned tablet has its own bucket and identifier and as many replicas
  // as asked for, or as there are nodes: those at its places of the round, the
  // first of them its leader.
  lemma PlannedExact(cube: string, partition: string, nodes: seq<int>, replication: nat, ids: seq<nat>, b: nat, i: nat)
    requires nodes != [] && replication > 0 && i < b <= |ids|
    ensures var planned := PlannedUpTo(cube, partition, nodes, replication, ids, b);
      && |planned| == b
      && planned[i].id == ids[i] && planned[i].cube == cube && planned[i].partition == partition && planned[i].bucket == i
      && |planned[i].nodes| == (if replication < |nodes| then replication else |nodes|)
      && (forall j :: 0 <= j < |planned[i].nodes| ==> planned[i].nodes[j] == nodes[(i * |planned[i].nodes| + j) % |nodes|])
      && planned[i].leader == planned[i].nodes[0]
  {
    var rep := Replicas(replication, |nodes|);
    forall j | 0 <= j < rep ensures Placement(nodes, rep, i)[j] == nodes[(i * rep + j) % |nodes|] {
      PlacementAt(nodes, rep, i, j);
    }
  }

  lemma StoredMore(kv: Store, tablets: seq<TabletInfo>, t: TabletInfo)
    ensures Stored(kv, tablets + [t]) == Stored(kv, tablets)[t.id := t]
  {
    assert (tablets + [t])[..|tablets|] == tablets;
  }

  class TabletManager {
    var kv: Store

    constructor ()
      ensures kv == map[]
    {
      kv := map[];
    }

    // `None` is the error of an empty node list or a failed Raft write.
    method Allocate(id: nat, cube: string, partition: string, bucket: nat, nodes: seq<int>, raftOk: bool) returns (r: Option<TabletInfo>)
      modifies this
      ensures r.Some? <==> nodes != [] && raftOk
      ensures r.None? ==> kv == old(kv)
      ensures r.Some? ==> r.value == TabletInfo(id, cube, partition, bucket, nodes, nodes[0]) && kv == old(kv)[id := r.value]
    {
      if nodes == [] { return None; }
      var t := TabletInfo(id, cube, partition, bucket, nodes, nodes[0]);
      if !raftOk { return None; }
      kv := kv[id := t];
      r := Some(t);
    }

    method AllocateBucket(cube: string, partition: string, nodes: seq<int>, replication: nat, id: nat, bucket: nat, raftOk: bool) returns (r: Option<TabletInfo>)
      modifies this
      ensures r.Some? <==> Replicas(replication, |nodes|) > 0 && raftOk
      ensures r.None? ==> kv == old(kv)
      ensures r.Some? ==> r.value == TabletOf(cube, partition, nodes, replication, id, bucket) && kv == old(kv)[id := r.value]
    {
      r := Allocate(id, cube, partition, bucket, Placement(nodes, Replicas(replication, |nodes|), bucket), raftOk);
    }

    // One tablet per bucket, in order; the first failure ends the allocation and
    // leaves the `done` tablets before it in the store. `failsAt` is the first
    // Raft write that fails.
    method AllocateForCube(cube: string, partition: string, nodes: seq<int>, replication: nat, ids: seq<nat>, failsAt: nat)
      returns (r: Option<seq<TabletInfo>>, ghost done: nat)
      modifies this
      ensures done <= |ids| && done <= failsAt
      ensures kv == Stored(old(kv), PlannedUpTo(cube, partition, nodes, replication, ids, done))
      ensures r.Some? ==> done == |ids| && r.value == PlannedUpTo(cube, partition, nodes, replication, ids, done)
      ensures r.None? ==> done < |ids| && (nodes == [] || replication == 0 || done == failsAt)
    {
      var tablets: seq<TabletInfo>, b := [], 0;
      done := 0;
      while b < |ids|
        invariant 0 <= b <= |ids| && b == done && b <= failsAt
        invariant tablets == PlannedUpTo(cube, partition, nodes, replication, ids, b)
        invariant kv == Stored(old(kv), tablets)
      {
        var t := AllocateBucket(cube, partition, nodes, replication, ids[b], b, b < failsAt);
        if t.None? { return None, done; }
        PlannedMore(cube, partition, nodes, replication, ids, b);
        StoredMore(old(kv), tablets, t.value);
        tablets := tablets + [t.value];
        b := b + 1;
        done := b;
      }
      r := Some(tablets);
    }
  }

  // ----- routing

  function InPartition(cube: string, partition: string): TabletInfo -> bool {
    (t: TabletInfo) => t.cube == cube && t.partition == partition
  }

  function ByBucket(): Cmp<TabletInfo> {
    (a: TabletInfo, b: TabletInfo) => if a.bucket < b.bucket then Less else if a.bucket == b.bucket then Equal else Greater
  }

  function WithBucket(tablets: seq<TabletInfo>, bucket: nat): Option<TabletInfo> {
    if tablets == [] then None
    else if tablets[0].bucket == bucket then Some(tablets[0])
    else WithBucket(tablets[1..], bucket)
  }

  // `scan` is the store's content in whatever order it is iterated.
  function Route(scan: seq<TabletInfo>, cube: string, partition: string, hash: nat, buckets: nat): Option<TabletInfo>
    requires buckets > 0
  {
    WithBucket(StableSort(Filter(scan, InPartition(cube, partition)), ByBucket()), hash % buckets)
  }

  ghost predicate Scans(scan: seq<TabletInfo>, kv: Store) {
    forall t :: t in scan <==> Holds(kv, t)
  }

  lemma {:induction false} WithBucketIn(tablets: seq<TabletInfo>, bucket: nat)
    ensures var r := WithBucket(tablets, bucket);
      if r.Some? then r.value in tablets && r.value.bucket == bucket else forall t :: t in tablets ==> t.bucket != bucket
  {
    if tablets != [] {
      WithBucketIn(tablets[1..], bucket);
      assert forall t :: t in tablets <==> t == tablets[0] || t in tablets[1..];
    }
  }

  lemma RouteFinds(scan: seq<TabletInfo>, cube: string, partition: string, hash: nat, buckets: nat)
    requires buckets > 0
    ensures var r, b := Route(scan, cube, partition, hash, buckets), hash % buckets;
      if r.Some? then r.value in scan && r.value.cube == cube && r.value.partition == partition && r.value.bucket == b
      else forall t :: t in scan && t.cube == cube && t.partition == partition ==> t.bucket != b
  {
    var mine := Filter(scan, InPartition(cube, partition));
    var sorted := StableSort(mine, ByBucket());
    SortElements(mine, ByBucket());
    WithBucketIn(sorted, hash % buckets);
    forall t ensures t in sorted <==> t in scan && t.cube == cube && t.partition == partition {
      ElementsMatch(sorted, mine, t);
      FilterIn(scan, InPartition(cube, partition), t);
    }
  }

  // After the first allocation of a partition, every hash is routed to the one
  // tablet of its bucket, if the bucket was allocated, and to none otherwise,
  // in whatever order the store is iterated.
  lemma RouteExact(kv: Store, cube: string, partition: string, nodes: seq<int>, rep: nat, ids: seq<nat>,
                   scan: seq<TabletInfo>, hash: nat, buckets: nat)
    requires 0 < rep <= |nodes| && Fresh(kv, ids) && buckets > 0
    requires forall t :: Holds(kv, t) ==> !(t.cube == cube && t.partition == partition)
    requires Scans(scan, Stored(kv, Planned(cube, partition, nodes, rep, ids)))
    ensures var planned := Planned(cube, partition, nodes, rep, ids);
      Route(scan, cube, partition, hash, buckets) == if hash % buckets < |ids| then Some(planned[hash % buckets]) else None
  {
    var planned, b := Planned(cube, partition, nodes, rep, ids), hash % buckets;
    RouteFinds(scan, cube, partition, hash, buckets);
    forall t ensures t in scan && t.cube == cube && t.partition == partition <==> t in planned {
      StoredHolds(kv, planned, t);
      assert t in planned ==> t.cube == cube && t.partition == partition;
    }
    if b < |ids| { assert planned[b] in planned && planned[b].bucket == b; }
    var r := Route(scan, cube, partition, hash, buckets);
    if r.Some? {
      var i :| 0 <= i < |planned| && planned[i] == r.value;
      assert planned[i].bucket == i;
    }
  }
}
