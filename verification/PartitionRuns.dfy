// Concurrent use of the partition manager: a call looks up under the read lock
// and adds under the write lock, and anything may happen in between.
module PartitionRuns {
  import opened Common
  import opened Partition

  datatype Call =
    | Searching(cube: string, ts: int)
    | Adding(cube: string, ts: int, p: PartitionKey)
    | Returned(cube: string, ts: int, p: PartitionKey, dropped: bool)
    | Panicked

  // A call's `dropped` records that its partition was dropped since the call
  // found or added it.
  datatype State = State(lists: Lists, calls: map<nat, Call>)

  datatype Event =
    | Begin(id: nat, cube: string, ts: int)
    | Search(id: nat, now: int)
    | Insert(id: nat)
    | Drop(cube: string, name: string)

  const START := State(map[], map[])

  function Searched(g: Granularity, b: Bounds, lists: Lists, c: Call, now: int): Call
    requires c.Searching?
  {
    var found := Find(ListOf(lists, c.cube), c.ts);
    if found.Some? then Returned(c.cube, c.ts, found.value, false)
    else
      var p := CreatePartition(g, b, now, c.ts);
      if p.Some? then Adding(c.cube, c.ts, p.value) else Panicked
  }

  function Marked(c: Call, cube: string, name: string): Call {
    if c.Returned? && c.cube == cube && c.p.name == name then c.(dropped := true) else c
  }

  // An event that is not enabled changes nothing.
  function Step(g: Granularity, b: Bounds, st: State, e: Event): State {
    match e
    case Begin(id, cube, ts) =>
      if id in st.calls then st else st.(calls := st.calls[id := Searching(cube, ts)])
    case Search(id, now) =>
      if id in st.calls && st.calls[id].Searching?
      then st.(calls := st.calls[id := Searched(g, b, st.lists, st.calls[id], now)])
      else st
    case Insert(id) =>
      if id in st.calls && st.calls[id].Adding? then
        var c := st.calls[id];
        st.(lists := AddedTo(st.lists, c.cube, c.p), calls := st.calls[id := Returned(c.cube, c.ts, c.p, false)])
      else st
    case Drop(cube, name) =>
      State(DroppedFrom(st.lists, cube, name), map id | id in st.calls :: Marked(st.calls[id], cube, name))
  }

  function Run(g: Granularity, b: Bounds, events: seq<Event>): State {
    if events == [] then START else Step(g, b, Run(g, b, events[..|events| - 1]), events[|events| - 1])
  }

  // ----- the invariant

  ghost predicate RightFor(g: Granularity, b: Bounds, ts: int, p: PartitionKey) {
    Canonical(g, p) && (b.Holds(ts) ==> p == PartitionAt(g, ts) && p.Contains(ts))
  }

  ghost predicate CallRight(g: Granularity, b: Bounds, lists: Lists, c: Call) {
    match c
    case Adding(_, ts, p) => RightFor(g, b, ts, p)
    case Returned(cube, ts, p, dropped) => RightFor(g, b, ts, p) && (p in ListOf(lists, cube) || dropped)
    case _ => true
  }

  ghost predicate Inv(g: Granularity, b: Bounds, st: State) {
    && AllTidy(g, st.lists)
    && forall id :: id in st.calls ==> CallRight(g, b, st.lists, st.calls[id])
  }

  lemma AddGrows(g: Granularity, lists: Lists, cube: string, p: PartitionKey)
    requires AllTidy(g, lists) && Canonical(g, p)
    ensures AllTidy(g, AddedTo(lists, cube, p)) && p in ListOf(AddedTo(lists, cube, p), cube)
    ensures forall c, q :: q in ListOf(lists, c) ==> q in ListOf(AddedTo(lists, cube, p), c)
  {
    AddKeepsTidy(g, ListOf(lists, cube), p);
    PutTidy(g, lists, cube, Added(ListOf(lists, cube), p));
  }

  lemma DropShrinks(g: Granularity, lists: Lists, cube: string, name: string)
    requires AllTidy(g, lists)
    ensures AllTidy(g, DroppedFrom(lists, cube, name))
    ensures forall c, q :: q in ListOf(lists, c) && !(c == cube && q.name == name) ==> q in ListOf(DroppedFrom(lists, cube, name), c)
  {
    if cube in lists {
      FilterTidy(g, lists[cube], Unnamed(name));
      forall q ensures q in Filter(lists[cube], Unnamed(name)) <==> q in lists[cube] && q.name != name {
        FilterIn(lists[cube], Unnamed(name), q);
      }
    }
  }

  lemma SearchIsRight(g: Granularity, b: Bounds, st: State, c: Call, now: int)
    requires AllTidy(g, st.lists) && c.Searching?
    ensures CallRight(g, b, st.lists, Searched(g, b, st.lists, c, now))
  {
    var list := ListOf(st.lists, c.cube);
    FindExact(g, list, c.ts);
    CreateExact(g, b, now, c.ts);
  }

  lemma SearchKeepsInv(g: Granularity, b: Bounds, st: State, id: nat, now: int)
    requires Inv(g, b, st)
    ensures Inv(g, b, Step(g, b, st, Search(id, now)))
  {
    if id in st.calls && st.calls[id].Searching? { SearchIsRight(g, b, st, st.calls[id], now); }
  }

  lemma InsertKeepsInv(g: Granularity, b: Bounds, st: State, id: nat)
    requires Inv(g, b, st)
    ensures Inv(g, b, Step(g, b, st, Insert(id)))
  {
    if id in st.calls && st.calls[id].Adding? {
      assert CallRight(g, b, st.lists, st.calls[id]);
      AddGrows(g, st.lists, st.calls[id].cube, st.calls[id].p);
    }
  }

  lemma DropKeepsInv(g: Granularity, b: Bounds, st: State, cube: string, name: string)
    requires Inv(g, b, st)
    ensures Inv(g, b, Step(g, b, st, Drop(cube, name)))
  {
    DropShrinks(g, st.lists, cube, name);
    forall id | id in st.calls ensures CallRight(g, b, DroppedFrom(st.lists, cube, name), Marked(st.calls[id], cube, name)) {
      assert CallRight(g, b, st.lists, st.calls[id]);
    }
  }

  lemma StepKeepsInv(g: Granularity, b: Bounds, st: State, e: Event)
    requires Inv(g, b, st)
    ensures Inv(g, b, Step(g, b, st, e))
  {
    match e
    case Begin(id, cube, ts) =>
    case Search(id, now) => SearchKeepsInv(g, b, st, id, now);
    case Insert(id) => InsertKeepsInv(g, b, st, id);
    case Drop(cube, name) => DropKeepsInv(g, b, st, cube, name);
  }

  lemma {:induction false} RunKeepsInv(g: Granularity, b: Bounds, events: seq<Event>)
    ensures Inv(g, b, Run(g, b, events))
  {
    if events != [] {
      RunKeepsInv(g, b, events[..|events| - 1]);
      StepKeepsInv(g, b, Run(g, b, events[..|events| - 1]), events[|events| - 1]);
    }
  }

  // ----- what holds in every interleaving

  // Every list is sorted, has no name twice, and has no overlapping partitions.
  lemma ListsStayDisjoint(g: Granularity, b: Bounds, events: seq<Event>, cube: string, i: nat, j: nat)
    requires i < j < |ListOf(Run(g, b, events).lists, cube)|
    ensures var list := ListOf(Run(g, b, events).lists, cube);
      list[i].lo < list[j].lo && list[i].name != list[j].name && list[i].hi <= list[j].lo
  {
    RunKeepsInv(g, b, events);
    TidyIsPartition(g, ListOf(Run(g, b, events).lists, cube), i, j);
  }

  // A call for a representable timestamp returns the one calendar partition
  // that contains it, whatever ran in between, and that partition is listed
  // unless it was dropped since the call found or added it.
  lemma CallsReturnTheirPartition(g: Granularity, b: Bounds, events: seq<Event>, id: nat)
    requires var calls := Run(g, b, events).calls; id in calls && calls[id].Returned?
    ensures var st := Run(g, b, events);
      var c := st.calls[id];
      && (b.Holds(c.ts) ==> c.p == PartitionAt(g, c.ts) && c.p.Contains(c.ts))
      && (c.p in ListOf(st.lists, c.cube) || c.dropped)
  {
    RunKeepsInv(g, b, events);
    assert CallRight(g, b, Run(g, b, events).lists, Run(g, b, events).calls[id]);
  }

  // The event at `k` drops what the call had returned by then.
  ghost predicate DropsAt(g: Granularity, b: Bounds, events: seq<Event>, id: nat, k: nat)
    requires k < |events|
  {
    var calls := Run(g, b, events[..k]).calls;
    id in calls && calls[id].Returned? && events[k] == Drop(calls[id].cube, calls[id].p.name)
  }

  lemma StepMarks(g: Granularity, b: Bounds, st: State, e: Event, id: nat)
    requires id in Step(g, b, st, e).calls && Step(g, b, st, e).calls[id].Returned?
    ensures Step(g, b, st, e).calls[id].dropped <==>
      id in st.calls && st.calls[id].Returned? && (st.calls[id].dropped || e == Drop(st.calls[id].cube, st.calls[id].p.name))
  {
  }

  // A call's mark means just that.
  lemma {:induction false} DroppedExact(g: Granularity, b: Bounds, events: seq<Event>, id: nat)
    requires var calls := Run(g, b, events).calls; id in calls && calls[id].Returned?
    ensures Run(g, b, events).calls[id].dropped <==> exists k :: 0 <= k < |events| && DropsAt(g, b, events, id, k)
  {
    var n := |events| - 1;
    var before := Run(g, b, events[..n]);
    StepMarks(g, b, before, events[n], id);
    forall k | 0 <= k < n ensures DropsAt(g, b, events, id, k) <==> DropsAt(g, b, events[..n], id, k) {
      assert events[..n][..k] == events[..k];
    }
    assert DropsAt(g, b, events, id, n) <==>
      id in before.calls && before.calls[id].Returned? && events[n] == Drop(before.calls[id].cube, before.calls[id].p.name);
    if id in before.calls && before.calls[id].Returned? {
      DroppedExact(g, b, events[..n], id);
    } else {
      NotYetDropped(g, b, events[..n], id);
    }
  }

  lemma {:induction false} NotYetDropped(g: Granularity, b: Bounds, events: seq<Event>, id: nat)
    requires var calls := Run(g, b, events).calls; id !in calls || !calls[id].Returned?
    ensures forall k :: 0 <= k < |events| ==> !DropsAt(g, b, events, id, k)
  {
    if events != [] {
      var n := |events| - 1;
      NotYetDropped(g, b, events[..n], id);
      forall k | 0 <= k < n ensures !DropsAt(g, b, events, id, k) {
        assert events[..n][..k] == events[..k];
        assert !DropsAt(g, b, events[..n], id, k);
      }
    }
  }

  // ----- what is listed

  // The event at `k` adds the partition to the cube's list.
  ghost predicate AddsAt(g: Granularity, b: Bounds, events: seq<Event>, cube: string, p: PartitionKey, k: nat)
    requires k < |events|
  {
    Adds(Run(g, b, events[..k]), events[k], cube, p)
  }

  // It was added, and no later event dropped its name.
  ghost predicate StaysFrom(g: Granularity, b: Bounds, events: seq<Event>, cube: string, p: PartitionKey, k: nat) {
    && k < |events| && AddsAt(g, b, events, cube, p, k)
    && forall j :: k < j < |events| ==> events[j] != Drop(cube, p.name)
  }

  lemma InsertLists(g: Granularity, b: Bounds, st: State, id: nat, cube: string, p: PartitionKey)
    requires Inv(g, b, st) && id in st.calls && st.calls[id].Adding?
    ensures p in ListOf(Step(g, b, st, Insert(id)).lists, cube) <==>
      p in ListOf(st.lists, cube) || (st.calls[id].cube == cube && st.calls[id].p == p)
  {
    assert CallRight(g, b, st.lists, st.calls[id]);
    AddLists(g, st.lists, st.calls[id].cube, st.calls[id].p, cube, p);
  }

  lemma AddLists(g: Granularity, lists: Lists, cube: string, added: PartitionKey, c: string, p: PartitionKey)
    requires AllTidy(g, lists) && Canonical(g, added)
    ensures p in ListOf(AddedTo(lists, cube, added), c) <==> p in ListOf(lists, c) || (c == cube && p == added)
  {
    AddKeepsTidy(g, ListOf(lists, cube), added);
  }

  lemma DropLists(lists: Lists, cube: string, name: string, c: string, p: PartitionKey)
    ensures p in ListOf(DroppedFrom(lists, cube, name), c) <==> p in ListOf(lists, c) && !(c == cube && p.name == name)
  {
    if cube in lists { FilterIn(lists[cube], Unnamed(name), p); }
  }

  ghost predicate Adds(st: State, e: Event, cube: string, p: PartitionKey) {
    e.Insert? && e.id in st.calls && st.calls[e.id].Adding? && st.calls[e.id].cube == cube && st.calls[e.id].p == p
  }

  lemma StepLists(g: Granularity, b: Bounds, st: State, e: Event, cube: string, p: PartitionKey)
    requires Inv(g, b, st)
    ensures p in ListOf(Step(g, b, st, e).lists, cube) <==> (p in ListOf(st.lists, cube) && e != Drop(cube, p.name)) || Adds(st, e, cube, p)
  {
    match e
    case Insert(id) => if id in st.calls && st.calls[id].Adding? { InsertLists(g, b, st, id, cube, p); }
    case Drop(c, name) => DropLists(st.lists, c, name, cube, p);
    case _ =>
  }

  lemma StaysMore(g: Granularity, b: Bounds, events: seq<Event>, cube: string, p: PartitionKey, k: nat)
    requires k < |events| - 1
    ensures StaysFrom(g, b, events, cube, p, k) <==>
      StaysFrom(g, b, events[..|events| - 1], cube, p, k) && events[|events| - 1] != Drop(cube, p.name)
  {
    assert events[..|events| - 1][..k] == events[..k];
  }

  ghost predicate Stays(g: Granularity, b: Bounds, events: seq<Event>, cube: string, p: PartitionKey) {
    exists k: nat :: StaysFrom(g, b, events, cube, p, k)
  }

  lemma StaysStep(g: Granularity, b: Bounds, events: seq<Event>, cube: string, p: PartitionKey)
    requires events != []
    ensures var n := |events| - 1;
      Stays(g, b, events, cube, p) <==>
      (Stays(g, b, events[..n], cube, p) && events[n] != Drop(cube, p.name)) || AddsAt(g, b, events, cube, p, n)
  {
    var n := |events| - 1;
    if Stays(g, b, events, cube, p) {
      var k: nat :| StaysFrom(g, b, events, cube, p, k);
      if k < n { StaysMore(g, b, events, cube, p, k); }
    }
    if Stays(g, b, events[..n], cube, p) && events[n] != Drop(cube, p.name) {
      var k: nat :| StaysFrom(g, b, events[..n], cube, p, k);
      StaysMore(g, b, events, cube, p, k);
    }
    if AddsAt(g, b, events, cube, p, n) { assert StaysFrom(g, b, events, cube, p, n); }
  }

  // In every interleaving the partitions listed are exactly those that some
  // call added and that were not dropped since.
  lemma {:induction false} ListedExact(g: Granularity, b: Bounds, events: seq<Event>, cube: string, p: PartitionKey)
    ensures p in ListOf(Run(g, b, events).lists, cube) <==> Stays(g, b, events, cube, p)
  {
    if events != [] {
      var n := |events| - 1;
      ListedExact(g, b, events[..n], cube, p);
      RunKeepsInv(g, b, events[..n]);
      StepLists(g, b, Run(g, b, events[..n]), events[n], cube, p);
      StaysStep(g, b, events, cube, p);
    }
  }

  // Two calls whose timestamps share a calendar unit return the same partition.
  lemma CallsAgree(g: Granularity, b: Bounds, events: seq<Event>, x: nat, y: nat)
    requires var calls := Run(g, b, events).calls;
      && x in calls && calls[x].Returned? && b.Holds(calls[x].ts)
      && y in calls && calls[y].Returned? && b.Holds(calls[y].ts)
    ensures var calls := Run(g, b, events).calls;
      UnitAt(g, calls[x].ts) == UnitAt(g, calls[y].ts) <==> calls[x].p == calls[y].p
  {
    CallsReturnTheirPartition(g, b, events, x);
    CallsReturnTheirPartition(g, b, events, y);
    var calls := Run(g, b, events).calls;
    UnitContains(g, UnitAt(g, calls[x].ts), calls[y].ts);
  }
}
