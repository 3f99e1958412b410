// The cluster's read-only switch: a list of reasons, one per source, and the
// administrator's override.
module ClusterGuard {
  import opened Common

  datatype Reason =
    | DiskFull(node: string, path: string, usage: real)
    | ManualOverride(admin: string, comment: Option<string>)

  // Two disk reasons match on node and path; overrides match only as a whole.
  predicate SameSource(a: Reason, b: Reason) {
    if a.DiskFull? && b.DiskFull? then a.node == b.node && a.path == b.path else a == b
  }

  datatype GuardState = GuardState(enabled: bool, reasons: seq<Reason>, enteredAt: Option<int>)

  const FRESH := GuardState(false, [], None)

  function OtherSource(r: Reason): Reason -> bool {
    (q: Reason) => !SameSource(q, r)
  }

  function AddReason(st: GuardState, r: Reason, now: int): GuardState {
    GuardState(true, Filter(st.reasons, OtherSource(r)) + [r], if st.enabled then st.enteredAt else Some(now))
  }

  function RemoveReason(st: GuardState, r: Reason): GuardState {
    var left := Filter(st.reasons, OtherSource(r));
    if left == [] then FRESH else st.(reasons := left)
  }

  // ----- what every sequence of changes keeps

  ghost predicate OnePerSource(reasons: seq<Reason>) {
    forall i, j :: 0 <= i < j < |reasons| ==> !SameSource(reasons[i], reasons[j])
  }

  ghost predicate Consistent(st: GuardState) {
    && (st.enabled <==> st.reasons != [])
    && (st.enteredAt.Some? <==> st.enabled)
    && OnePerSource(st.reasons)
  }

  ghost predicate HasSource(st: GuardState, r: Reason) {
    exists q :: q in st.reasons && SameSource(q, r)
  }

  lemma SameSourceIsEquivalence(a: Reason, b: Reason, c: Reason)
    ensures SameSource(a, a) && (SameSource(a, b) <==> SameSource(b, a))
    ensures SameSource(a, b) && SameSource(b, c) ==> SameSource(a, c)
  {
  }

  lemma {:induction false} FilterOnePerSource(reasons: seq<Reason>, keep: Reason -> bool)
    requires OnePerSource(reasons)
    ensures OnePerSource(Filter(reasons, keep))
  {
    if reasons != [] {
      var tail := reasons[1..];
      FilterOnePerSource(tail, keep);
      var r := Filter(tail, keep);
      forall i | 0 <= i < |r| ensures !SameSource(reasons[0], r[i]) {
        FilterIn(tail, keep, r[i]);
        var j :| 0 <= j < |tail| && tail[j] == r[i];
        assert reasons[j + 1] == r[i];
      }
    }
  }

  // Adding a reason replaces the reason of the same source and keeps the rest.
  lemma AddExact(st: GuardState, r: Reason, now: int)
    requires Consistent(st)
    ensures Consistent(AddReason(st, r, now))
    ensures var reasons := AddReason(st, r, now).reasons;
      && reasons[|reasons| - 1] == r
      && forall q :: q in reasons <==> q == r || (q in st.reasons && !SameSource(q, r))
    ensures forall q :: HasSource(AddReason(st, r, now), q) <==> SameSource(r, q) || HasSource(st, q)
  {
    var left := Filter(st.reasons, OtherSource(r));
    FilterOnePerSource(st.reasons, OtherSource(r));
    forall q ensures q in left <==> q in st.reasons && !SameSource(q, r) {
      FilterIn(st.reasons, OtherSource(r), q);
    }
    var after := AddReason(st, r, now);
    assert r in after.reasons;
    forall i | 0 <= i < |left| ensures !SameSource(left[i], r) {
      assert left[i] in left;
    }
    forall q ensures HasSource(after, q) <==> SameSource(r, q) || HasSource(st, q) {
      if HasSource(st, q) {
        var p :| p in st.reasons && SameSource(p, q);
        SameSourceIsEquivalence(r, p, q);
        if !SameSource(p, r) { assert p in after.reasons; }
      }
    }
  }

  // Removing a reason removes its source and nothing else.
  lemma RemoveExact(st: GuardState, r: Reason)
    requires Consistent(st)
    ensures Consistent(RemoveReason(st, r))
    ensures forall q :: q in RemoveReason(st, r).reasons <==> q in st.reasons && !SameSource(q, r)
    ensures forall q :: HasSource(RemoveReason(st, r), q) <==> !SameSource(r, q) && HasSource(st, q)
  {
    var after := RemoveReason(st, r);
    FilterOnePerSource(st.reasons, OtherSource(r));
    forall q ensures q in after.reasons <==> q in st.reasons && !SameSource(q, r) {
      FilterIn(st.reasons, OtherSource(r), q);
    }
    forall q ensures HasSource(after, q) <==> !SameSource(r, q) && HasSource(st, q) {
      if HasSource(after, q) {
        var p :| p in after.reasons && SameSource(p, q);
        SameSourceIsEquivalence(p, q, r);
      }
      if !SameSource(r, q) && HasSource(st, q) {
        var p :| p in st.reasons && SameSource(p, q);
        SameSourceIsEquivalence(r, p, q);
        assert p in after.reasons;
      }
    }
  }

  // ----- the administrator's override

  // Clearing removes the override of this administrator that has no comment.
  function ClearManual(st: GuardState, admin: string, force: bool): Option<GuardState> {
    if (exists i :: 0 <= i < |st.reasons| && st.reasons[i].DiskFull?) && !force then None
    else Some(RemoveReason(st, ManualOverride(admin, None)))
  }

  // A clear is refused if and only if a disk is full and it is not forced. One
  // that is accepted drops that override and nothing else, and so ends read-only
  // mode if and only if no disk is full and every override was set by the same
  // administrator without a comment.
  lemma ClearExact(st: GuardState, admin: string, force: bool)
    requires Consistent(st)
    ensures var r := ClearManual(st, admin, force);
      && (r.None? <==> !force && exists q :: q in st.reasons && q.DiskFull?)
      && (r.Some? ==> forall q :: q in r.value.reasons <==> q in st.reasons && q != ManualOverride(admin, None))
      && (r.Some? ==> (!r.value.enabled <==> forall q :: q in st.reasons ==> q == ManualOverride(admin, None)))
  {
    var r := ManualOverride(admin, None);
    var after := RemoveReason(st, r);
    RemoveExact(st, r);
    if q :| q in st.reasons && q.DiskFull? {
      var i :| 0 <= i < |st.reasons| && st.reasons[i] == q;
      assert st.reasons[i].DiskFull?;
    }
    if after.enabled { assert after.reasons[0] in after.reasons; }
    if !after.enabled {
      forall q | q in st.reasons ensures q == r {
        assert q !in after.reasons;
      }
    }
  }

  // ----- the copy in Raft

  datatype Change = Put(r: Reason, now: int) | Drop(r: Reason)

  function Changed(st: GuardState, c: Change): GuardState {
    match c
    case Put(r, now) => AddReason(st, r, now)
    case Drop(r) => RemoveReason(st, r)
  }

  function After(changes: seq<Change>): GuardState {
    if changes == [] then FRESH else Changed(After(changes[..|changes| - 1]), changes[|changes| - 1])
  }

  lemma {:induction false} AfterConsistent(changes: seq<Change>)
    ensures Consistent(After(changes))
  {
    if changes != [] {
      var before, c := After(changes[..|changes| - 1]), changes[|changes| - 1];
      AfterConsistent(changes[..|changes| - 1]);
      match c
      case Put(r, now) => AddExact(before, r, now);
      case Drop(r) => RemoveExact(before, r);
    }
  }

  // The change that brought read-only mode in, after which it never ended.
  ghost predicate Entered(changes: seq<Change>, k: nat) {
    && k < |changes| && changes[k].Put? && !After(changes[..k]).enabled
    && forall j :: k < j <= |changes| ==> After(changes[..j]).enabled
  }

  // While the mode lasts the state tells when it was entered.
  lemma {:induction false} EnteredExact(changes: seq<Change>) returns (k: nat)
    requires After(changes).enabled
    ensures Entered(changes, k) && After(changes).enteredAt == Some(changes[k].now)
  {
    var n := |changes| - 1;
    var before := After(changes[..n]);
    AfterConsistent(changes[..n]);
    assert changes[..n + 1] == changes;
    if before.enabled {
      k := EnteredExact(changes[..n]);
      assert changes[..n][..k] == changes[..k];
      forall j | k < j <= |changes| ensures After(changes[..j]).enabled {
        if j <= n { assert changes[..n][..j] == changes[..j]; }
      }
    } else {
      k := n;
    }
  }

  // Changing the local state makes a copy of it under the lock; the copy is
  // written afterwards. The writes may reach Raft in any order, or not at all.
  datatype Event = Make(c: Change) | Land(i: nat)

  datatype Copy = Copy(changes: seq<Change>, stored: Option<GuardState>)

  function RunCopy(events: seq<Event>): Copy {
    if events == [] then Copy([], None)
    else
      var before := RunCopy(events[..|events| - 1]);
      match events[|events| - 1]
      case Make(c) => before.(changes := before.changes + [c])
      case Land(i) => if i < |before.changes| then before.(stored := Some(After(before.changes[..i + 1]))) else before
  }

  // The change whose copy was written last.
  function LastLanded(events: seq<Event>): Option<nat> {
    if events == [] then None
    else
      var n := |events| - 1;
      match events[n]
      case Make(_) => LastLanded(events[..n])
      case Land(i) => if i < |RunCopy(events[..n]).changes| then Some(i) else LastLanded(events[..n])
  }

  // In every run the stored copy is the state as of the change written last,
  // whatever changes were made before or after it.
  lemma {:induction false} CopyExact(events: seq<Event>)
    ensures var copy, last := RunCopy(events), LastLanded(events);
      && (last.Some? ==> last.value < |copy.changes|)
      && copy.stored == if last.Some? then Some(After(copy.changes[..last.value + 1])) else None
  {
    if events != [] {
      var n := |events| - 1;
      CopyExact(events[..n]);
      var before, last := RunCopy(events[..n]), LastLanded(events[..n]);
      if events[n].Make? && last.Some? {
        assert (before.changes + [events[n].c])[..last.value + 1] == before.changes[..last.value + 1];
      }
    }
  }

  // Putting the last reason again or dropping an absent source changes nothing.
  ghost predicate Idle(st: GuardState, c: Change) {
    match c
    case Put(r, _) => st.reasons != [] && st.reasons[|st.reasons| - 1] == r
    case Drop(r) => !HasSource(st, r)
  }

  lemma {:induction false} FilterKeepsAll(reasons: seq<Reason>, r: Reason)
    ensures Filter(reasons, OtherSource(r)) == reasons <==> forall q :: q in reasons ==> !SameSource(q, r)
  {
    if Filter(reasons, OtherSource(r)) == reasons {
      forall q | q in reasons ensures !SameSource(q, r) {
        FilterIn(reasons, OtherSource(r), q);
      }
    } else if forall q :: q in reasons ==> !SameSource(q, r) {
      FilterAll(reasons, OtherSource(r));
    }
  }

  lemma PutIdle(st: GuardState, r: Reason, now: int)
    requires Consistent(st) && st.reasons != [] && st.reasons[|st.reasons| - 1] == r
    ensures AddReason(st, r, now) == st
  {
    var n := |st.reasons| - 1;
    var front := st.reasons[..n];
    assert st.reasons == front + [r];
    FilterAppend(front, [r], OtherSource(r));
    SameSourceIsEquivalence(r, r, r);
    assert [r][1..] == [] && Filter([r], OtherSource(r)) == [];
    FilterKeepsAll(front, r);
    assert forall q :: q in front ==> !SameSource(q, r);
  }

  lemma IdleExact(st: GuardState, c: Change)
    requires Consistent(st)
    ensures Changed(st, c) == st <==> Idle(st, c)
  {
    match c
    case Put(r, now) =>
      if Idle(st, c) { PutIdle(st, r, now); }
      if AddReason(st, r, now) == st { assert st.reasons[|st.reasons| - 1] == r; }
    case Drop(r) =>
      FilterKeepsAll(st.reasons, r);
      if Idle(st, c) {
        assert forall q :: q in st.reasons ==> !SameSource(q, r);
      } else {
        RemoveExact(st, r);
      }
  }

  // A change that is made but not written leaves a copy that was in step out of
  // step if and only if it changed something.
  lemma StaleExact(events: seq<Event>, c: Change)
    requires RunCopy(events).stored == Some(After(RunCopy(events).changes))
    ensures var copy := RunCopy(events + [Make(c)]);
      copy.stored == Some(After(copy.changes)) <==> Idle(After(RunCopy(events).changes), c)
  {
    var before := RunCopy(events);
    assert (events + [Make(c)])[..|events|] == events;
    assert (before.changes + [c])[..|before.changes|] == before.changes;
    AfterConsistent(before.changes);
    IdleExact(After(before.changes), c);
  }

  // ----- the guard

  class Guard {
    var state: GuardState
    // The copy in Raft, if one was ever written.
    var stored: Option<GuardState>

    constructor ()
      ensures state == FRESH && stored == None
    {
      state := FRESH;
      stored := None;
    }

    ghost predicate Valid()
      reads this
    {
      Consistent(state)
    }

    // The local state changes before the Raft write, which may fail.
    method Add(r: Reason, now: int, raftOk: bool) returns (ok: bool)
      requires Valid()
      modifies this
      ensures Valid() && state == AddReason(old(state), r, now) && ok == raftOk
      ensures stored == if raftOk then Some(state) else old(stored)
    {
      AddExact(state, r, now);
      var entered := !state.enabled;
      state := state.(reasons := Filter(state.reasons, OtherSource(r)));
      if entered { state := state.(enabled := true, enteredAt := Some(now)); }
      state := state.(reasons := state.reasons + [r]);
      ok := raftOk;
      if ok { stored := Some(state); }
    }

    method Remove(r: Reason, raftOk: bool) returns (ok: bool)
      requires Valid()
      modifies this
      ensures Valid() && state == RemoveReason(old(state), r) && ok == raftOk
      ensures stored == if raftOk then Some(state) else old(stored)
    {
      RemoveExact(state, r);
      state := state.(reasons := Filter(state.reasons, OtherSource(r)));
      if state.reasons == [] { state := state.(enabled := false, enteredAt := None); }
      ok := raftOk;
      if ok { stored := Some(state); }
    }

    // After a restart the guard has the stored state.
    method LoadFromRaft()
      requires stored.Some? ==> Consistent(stored.value)
      requires Valid()
      modifies this`state
      ensures Valid() && state == if stored.Some? then stored.value else old(state)
    {
      if stored.Some? { state := stored.value; }
    }

    // Writes are refused, with all reasons, exactly while some reason remains.
    method CheckWriteAllowed() returns (refused: Option<seq<Reason>>)
      requires Valid()
      ensures refused == if state.reasons == [] then None else Some(state.reasons)
    {
      refused := if state.enabled then Some(state.reasons) else None;
    }
  }
}
