// FUNNEL_COUNT: for each user, how many steps of the funnel the sorted events
// complete, and how many users complete each step.
module Funnel {
  import opened Calendar
  import opened Common
  import opened Sorting

  datatype Event = Event(ts: int, name: string)

  // ----- one user's scan

  datatype Scan = Scan(stepIdx: nat, first: Option<int>, maxStep: nat)

  const BEGIN := Scan(0, None, 0)

  predicate Expected(steps: seq<string>, st: Scan, e: Event) {
    st.stepIdx < |steps| && e.name == steps[st.stepIdx]
  }

  // The event is the next step but comes too late after the first one.
  predicate Late(steps: seq<string>, window: int, st: Scan, e: Event) {
    Expected(steps, st, e) && st.stepIdx > 0 && st.first.Some? && e.ts - st.first.value > window
  }

  function Next(steps: seq<string>, window: int, st: Scan, e: Event): Scan {
    if !Expected(steps, st, e) then st
    else if st.stepIdx == 0 then Scan(1, Some(e.ts), 1)
    else if st.first.None? then st
    else if e.ts - st.first.value <= window then Scan(st.stepIdx + 1, st.first, st.stepIdx + 1)
    else Scan(1, Some(e.ts), st.maxStep)
  }

  function ScanAll(steps: seq<string>, window: int, events: seq<Event>): Scan {
    if events == [] then BEGIN
    else Next(steps, window, ScanAll(steps, window, events[..|events| - 1]), events[|events| - 1])
  }

  method ScanUser(steps: seq<string>, window: int, events: seq<Event>) returns (maxStep: nat)
    ensures maxStep == ScanAll(steps, window, events).maxStep
  {
    var stepIdx, first: Option<int> := 0, None;
    maxStep := 0;
    var i := 0;
    while i < |events|
      invariant 0 <= i <= |events|
      invariant ScanAll(steps, window, events[..i]) == Scan(stepIdx, first, maxStep)
    {
      var e := events[i];
      assert events[..i + 1][..i] == events[..i];
      if stepIdx < |steps| && e.name == steps[stepIdx] {
        if stepIdx == 0 {
          first, stepIdx, maxStep := Some(e.ts), 1, 1;
        } else if first.Some? {
          if e.ts - first.value <= window {
            stepIdx := stepIdx + 1;
            maxStep := stepIdx;
          } else {
            stepIdx, first := 1, Some(e.ts);
          }
        }
      }
      i := i + 1;
    }
    assert events[..i] == events;
  }

  // ----- what completing steps means

  // `at` are the positions, in order, of events that are the steps in order.
  ghost predicate Matches(steps: seq<string>, events: seq<Event>, at: seq<nat>) {
    && |at| <= |steps|
    && (forall j :: 0 <= j < |at| ==> at[j] < |events| && events[at[j]].name == steps[j])
    && (forall j, k :: 0 <= j < k < |at| ==> at[j] < at[k])
  }

  ghost predicate InWindow(window: int, events: seq<Event>, at: seq<nat>)
    requires forall j :: 0 <= j < |at| ==> at[j] < |events|
  {
    forall j :: 0 < j < |at| ==> events[at[j]].ts - events[at[0]].ts <= window
  }

  // The first `i` steps are a subsequence of the events.
  ghost predicate Completes(steps: seq<string>, events: seq<Event>, i: nat) {
    exists at :: |at| == i && Matches(steps, events, at)
  }

  // They are one whose events all come within the window of its first.
  ghost predicate CompletesInWindow(steps: seq<string>, window: int, events: seq<Event>, i: nat) {
    exists at :: |at| == i && Matches(steps, events, at) && InWindow(window, events, at)
  }

  // The scan does not find the k-th event too late.
  predicate OnTime(steps: seq<string>, window: int, events: seq<Event>, k: nat)
    requires k < |events|
  {
    !Late(steps, window, ScanAll(steps, window, events[..k]), events[k])
  }

  ghost predicate NeverLate(steps: seq<string>, window: int, events: seq<Event>) {
    forall k :: 0 <= k < |events| ==> OnTime(steps, window, events, k)
  }

  lemma NeverLateBefore(steps: seq<string>, window: int, events: seq<Event>)
    requires events != [] && NeverLate(steps, window, events)
    ensures NeverLate(steps, window, events[..|events| - 1])
    ensures !Late(steps, window, ScanAll(steps, window, events[..|events| - 1]), events[|events| - 1])
  {
    var before := events[..|events| - 1];
    forall k | 0 <= k < |before| ensures OnTime(steps, window, before, k) {
      assert OnTime(steps, window, events, k);
      assert before[..k] == events[..k] && before[k] == events[k];
    }
    assert OnTime(steps, window, events, |events| - 1);
  }

  lemma MatchesMore(steps: seq<string>, window: int, events: seq<Event>, n: nat, at: seq<nat>)
    requires n <= |events| && Matches(steps, events[..n], at)
    ensures Matches(steps, events, at) && forall j :: 0 <= j < |at| ==> at[j] < n
    ensures InWindow(window, events[..n], at) <==> InWindow(window, events, at)
  {
  }

  lemma MatchGrows(steps: seq<string>, window: int, events: seq<Event>, n: nat, at: seq<nat>)
    requires n < |events| && Matches(steps, events, at) && InWindow(window, events, at) && forall j :: 0 <= j < |at| ==> at[j] < n
    requires |at| < |steps| && events[n].name == steps[|at|]
    requires at != [] ==> events[n].ts - events[at[0]].ts <= window
    ensures Matches(steps, events, at + [n]) && InWindow(window, events, at + [n])
  {
  }

  // While nothing is late the scan holds a windowed match of its length.
  lemma {:induction false} ScanIsMatch(steps: seq<string>, window: int, events: seq<Event>) returns (at: seq<nat>)
    requires NeverLate(steps, window, events)
    ensures var st := ScanAll(steps, window, events);
      && st.maxStep == st.stepIdx == |at| && Matches(steps, events, at) && InWindow(window, events, at)
      && (at == [] ==> st.first.None?) && (at != [] ==> st.first == Some(events[at[0]].ts))
    decreases |events|
  {
    at := [];
    if events != [] {
      var n := |events| - 1;
      NeverLateBefore(steps, window, events);
      at := ScanIsMatch(steps, window, events[..n]);
      MatchesMore(steps, window, events, n, at);
      NextAdvances(steps, window, ScanAll(steps, window, events[..n]), events[n]);
      if Expected(steps, ScanAll(steps, window, events[..n]), events[n]) {
        MatchGrows(steps, window, events, n, at);
        at := at + [n];
      }
    }
  }

  lemma MatchShrinks(steps: seq<string>, events: seq<Event>, at: seq<nat>)
    requires Matches(steps, events, at) && at != []
    ensures events != [] && at[|at| - 1] < |events|
    ensures at[|at| - 1] < |events| - 1 ==> Matches(steps, events[..|events| - 1], at)
    ensures Matches(steps, events[..|events| - 1], at[..|at| - 1])
  {
    assert at[|at| - 1] < |events|;
  }

  lemma {:induction false} FirstIsKnown(steps: seq<string>, window: int, events: seq<Event>)
    ensures ScanAll(steps, window, events).stepIdx > 0 ==> ScanAll(steps, window, events).first.Some?
  {
    if events != [] { FirstIsKnown(steps, window, events[..|events| - 1]); }
  }

  lemma NextAdvances(steps: seq<string>, window: int, st: Scan, e: Event)
    requires !Late(steps, window, st, e) && (st.stepIdx > 0 ==> st.first.Some?)
    ensures Next(steps, window, st, e).stepIdx == st.stepIdx + if Expected(steps, st, e) then 1 else 0
  {
  }

  // While nothing is late the scan is at least as far as any match.
  lemma {:induction false} ScanIsFarthest(steps: seq<string>, window: int, events: seq<Event>, at: seq<nat>)
    requires NeverLate(steps, window, events) && Matches(steps, events, at)
    ensures |at| <= ScanAll(steps, window, events).stepIdx
    decreases |events|
  {
    if at != [] {
      MatchShrinks(steps, events, at);
      var n, i := |events| - 1, |at| - 1;
      NeverLateBefore(steps, window, events);
      FirstIsKnown(steps, window, events[..n]);
      NextAdvances(steps, window, ScanAll(steps, window, events[..n]), events[n]);
      if at[i] < n {
        ScanIsFarthest(steps, window, events[..n], at);
      } else {
        ScanIsFarthest(steps, window, events[..n], at[..i]);
      }
    }
  }

  // When no event comes too late, greedy matching is optimal: the scan reaches
  // step `i` exactly when the first `i` steps are a subsequence of the events,
  // and exactly when they are one within the window.
  lemma GreedyIsOptimal(steps: seq<string>, window: int, events: seq<Event>, i: nat)
    requires NeverLate(steps, window, events)
    ensures i <= ScanAll(steps, window, events).maxStep <==> Completes(steps, events, i)
    ensures i <= ScanAll(steps, window, events).maxStep <==> CompletesInWindow(steps, window, events, i)
  {
    var at := ScanIsMatch(steps, window, events);
    if i <= |at| {
      var front := at[..i];
      assert |front| == i && Matches(steps, events, front) && InWindow(window, events, front);
    }
    if Completes(steps, events, i) {
      var m :| |m| == i && Matches(steps, events, m);
      ScanIsFarthest(steps, window, events, m);
    }
  }

  ghost predicate SpanCovered(window: int, events: seq<Event>) {
    forall i, j :: 0 <= i < j < |events| ==> events[j].ts - events[i].ts <= window
  }

  lemma {:induction false} FirstIsEarlier(steps: seq<string>, window: int, events: seq<Event>)
    ensures var st := ScanAll(steps, window, events);
      st.first.Some? ==> exists i :: 0 <= i < |events| && events[i].ts == st.first.value
  {
    if events != [] {
      var n := |events| - 1;
      FirstIsEarlier(steps, window, events[..n]);
      var before := ScanAll(steps, window, events[..n]);
      if before.first.Some? {
        var i :| 0 <= i < n && events[..n][i].ts == before.first.value;
        assert events[i].ts == before.first.value;
      }
      assert events[n].ts == events[n].ts;
    }
  }

  // A window that covers a user's whole span leaves nothing late.
  lemma CoveredIsNeverLate(steps: seq<string>, window: int, events: seq<Event>)
    requires SpanCovered(window, events)
    ensures NeverLate(steps, window, events)
  {
    forall k | 0 <= k < |events| ensures OnTime(steps, window, events, k) {
      FirstIsEarlier(steps, window, events[..k]);
      var st := ScanAll(steps, window, events[..k]);
      if st.first.Some? {
        var i :| 0 <= i < k && events[..k][i].ts == st.first.value;
        assert events[k].ts - events[i].ts <= window;
      }
    }
  }

  // A late event restarts the scan as if it were the first step, which counts
  // steps that were never completed in the window.
  lemma LateEventOvercounts()
    ensures var steps, events := ["a", "b"], [Event(0, "a"), Event(100, "b"), Event(105, "b")];
      ScanAll(steps, 10, events).maxStep == 2 && !CompletesInWindow(steps, 10, events, 2)
  {
    var steps, events := ["a", "b"], [Event(0, "a"), Event(100, "b"), Event(105, "b")];
    assert events[..2][..1][..0] == [] && events[..2][..1] == events[..1];
    assert ScanAll(steps, 10, events[..1]) == Scan(1, Some(0), 1);
    assert ScanAll(steps, 10, events[..2]) == Scan(1, Some(100), 1);
    assert events[..|events| - 1] == events[..2];
    forall at | |at| == 2 && Matches(steps, events, at) ensures !InWindow(10, events, at) {
      assert events[at[0]].name == "a" && events[at[1]].name == "b";
      assert at[0] == 0 && at[1] > 0;
    }
  }

  // It also loses steps that were.
  lemma LateEventUndercounts()
    ensures var steps, events := ["a", "b", "c", "d"], [Event(0, "a"), Event(1, "b"), Event(2, "c"), Event(100, "d"), Event(101, "b")];
      ScanAll(steps, 10, events).maxStep == 2 && CompletesInWindow(steps, 10, events, 3)
  {
    var steps, events := ["a", "b", "c", "d"], [Event(0, "a"), Event(1, "b"), Event(2, "c"), Event(100, "d"), Event(101, "b")];
    assert events[..1][..0] == [] && events[..2][..1] == events[..1] && events[..3][..2] == events[..2] && events[..4][..3] == events[..3];
    assert ScanAll(steps, 10, events[..1]) == Scan(1, Some(0), 1);
    assert ScanAll(steps, 10, events[..2]) == Scan(2, Some(0), 2);
    assert ScanAll(steps, 10, events[..3]) == Scan(3, Some(0), 3);
    assert ScanAll(steps, 10, events[..4]) == Scan(1, Some(100), 3);
    assert events[..|events| - 1] == events[..4];
    var at: seq<nat> := [0, 1, 2];
    assert Matches(steps, events, at) && InWindow(10, events, at);
  }

  // ----- for which timestamps the scan is always exact

  ghost predicate InTime(events: seq<Event>) {
    forall i, j :: 0 <= i < j < |events| ==> events[i].ts <= events[j].ts
  }

  // Event `k` is in the window of `j` but not in that of the earlier `i`.
  predicate Straddles(window: int, events: seq<Event>, i: nat, j: nat, k: nat) {
    i < j < k < |events| && events[k].ts - events[i].ts > window && events[k].ts - events[j].ts <= window
  }

  ghost predicate HasStraddle(window: int, events: seq<Event>) {
    exists i, j, k :: Straddles(window, events, i, j, k)
  }

  ghost predicate ScanExact(steps: seq<string>, window: int, events: seq<Event>) {
    forall i: nat :: i <= ScanAll(steps, window, events).maxStep <==> CompletesInWindow(steps, window, events, i)
  }

  // Event `k` is outside the window of every earlier one.
  ghost predicate Outside(window: int, events: seq<Event>, k: nat)
    requires k < |events|
  {
    forall j :: 0 <= j < k ==> events[k].ts - events[j].ts > window
  }

  // Without a straddle the events are a covered stretch followed by events each
  // outside the window of all before it.
  lemma CoveredThenOutside(window: int, events: seq<Event>) returns (m: nat)
    requires InTime(events) && !HasStraddle(window, events)
    ensures m <= |events| && SpanCovered(window, events[..m])
    ensures forall k :: m <= k < |events| ==> Outside(window, events, k)
  {
    m := 0;
    while m < |events| && (m == 0 || events[m].ts - events[0].ts <= window)
      invariant m <= |events|
      invariant forall j :: 0 < j < m ==> events[j].ts - events[0].ts <= window
    {
      m := m + 1;
    }
    forall k | m <= k < |events| ensures Outside(window, events, k) {
      forall j | 0 <= j < k ensures events[k].ts - events[j].ts > window {
        assert !Straddles(window, events, 0, j, k);
      }
    }
  }

  lemma {:induction false} StartsExactly(steps: seq<string>, window: int, events: seq<Event>)
    ensures var st := ScanAll(steps, window, events);
      && (st.stepIdx > 0 <==> st.maxStep > 0)
      && (st.maxStep > 0 <==> steps != [] && exists k :: 0 <= k < |events| && events[k].name == steps[0])
  {
    if events != [] {
      var n := |events| - 1;
      StartsExactly(steps, window, events[..n]);
      assert forall k :: 0 <= k < n ==> events[..n][k] == events[k];
    }
  }

  lemma CompletesOne(steps: seq<string>, window: int, events: seq<Event>)
    ensures 1 <= ScanAll(steps, window, events).maxStep <==> CompletesInWindow(steps, window, events, 1)
  {
    StartsExactly(steps, window, events);
    if steps != [] {
      forall k: nat | k < |events| && events[k].name == steps[0] ensures CompletesInWindow(steps, window, events, 1) {
        var at: seq<nat> := [k];
        assert |at| == 1 && Matches(steps, events, at) && InWindow(window, events, at);
      }
    }
    if CompletesInWindow(steps, window, events, 1) {
      var at :| |at| == 1 && Matches(steps, events, at);
      assert events[at[0]].name == steps[0];
    }
  }

  // An outside event finishes no step but the first.
  lemma OutsideNext(steps: seq<string>, window: int, events: seq<Event>, k: nat)
    requires k < |events| && Outside(window, events, k)
    ensures var before, after := ScanAll(steps, window, events[..k]).maxStep, ScanAll(steps, window, events[..k + 1]).maxStep;
      before == after || (before == 0 && after == 1)
  {
    assert events[..k + 1][..k] == events[..k];
    StartsExactly(steps, window, events[..k]);
    FirstIsEarlier(steps, window, events[..k]);
  }

  lemma {:induction false} OutsideTail(steps: seq<string>, window: int, events: seq<Event>, m: nat, n: nat)
    requires m <= n <= |events| && forall k :: m <= k < n ==> Outside(window, events, k)
    ensures var before, after := ScanAll(steps, window, events[..m]).maxStep, ScanAll(steps, window, events[..n]).maxStep;
      before == after || (before == 0 && after == 1)
    decreases n - m
  {
    if m < n {
      OutsideTail(steps, window, events, m, n - 1);
      OutsideNext(steps, window, events, n - 1);
    }
  }

  lemma MatchInFront(steps: seq<string>, window: int, events: seq<Event>, m: nat, at: seq<nat>)
    requires m <= |events| && forall k :: m <= k < |events| ==> Outside(window, events, k)
    requires |at| > 1 && Matches(steps, events, at) && InWindow(window, events, at)
    ensures Matches(steps, events[..m], at) && InWindow(window, events[..m], at)
  {
    forall j | 0 < j < |at| ensures at[j] < m {
      assert at[0] < at[j] < |events|;
      assert at[j] >= m ==> Outside(window, events, at[j]);
    }
    assert at[0] < at[1];
  }

  // Events in time order without a straddle: the scan is exact for every funnel.
  lemma ExactWithoutStraddle(steps: seq<string>, window: int, events: seq<Event>)
    requires InTime(events) && !HasStraddle(window, events)
    ensures ScanExact(steps, window, events)
  {
    var m := CoveredThenOutside(window, events);
    CoveredIsNeverLate(steps, window, events[..m]);
    OutsideTail(steps, window, events, m, |events|);
    assert events[..|events|] == events;
    CompletesOne(steps, window, events);
    forall i: nat ensures i <= ScanAll(steps, window, events).maxStep <==> CompletesInWindow(steps, window, events, i) {
      GreedyIsOptimal(steps, window, events[..m], i);
      if i == 0 {
        var at: seq<nat> := [];
        assert |at| == i && Matches(steps, events, at) && InWindow(window, events, at);
      } else if i > 1 {
        if CompletesInWindow(steps, window, events[..m], i) {
          var at :| |at| == i && Matches(steps, events[..m], at) && InWindow(window, events[..m], at);
          MatchesMore(steps, window, events, m, at);
        }
        if CompletesInWindow(steps, window, events, i) {
          var at :| |at| == i && Matches(steps, events, at) && InWindow(window, events, at);
          MatchInFront(steps, window, events, m, at);
        }
      }
    }
  }

  // The same timestamps under other names.
  function Named(events: seq<Event>, names: seq<string>): seq<Event>
    requires |names| == |events|
  {
    seq(|events|, i requires 0 <= i < |events| => Event(events[i].ts, names[i]))
  }

  function StraddleNames(i: nat, j: nat, k: nat, n: nat): seq<string> {
    seq(n, x => if x == i || x == j then "a" else if x == k then "b" else "c")
  }

  lemma {:induction false} StraddleScan(window: int, events: seq<Event>, i: nat, j: nat, k: nat, n: nat)
    requires Straddles(window, events, i, j, k) && n <= |events|
    ensures ScanAll(["a", "b"], window, Named(events, StraddleNames(i, j, k, |events|))[..n])
      == if n <= i then BEGIN else if n <= k then Scan(1, Some(events[i].ts), 1) else Scan(1, Some(events[k].ts), 1)
  {
    if n > 0 {
      StraddleScan(window, events, i, j, k, n - 1);
      var renamed := Named(events, StraddleNames(i, j, k, |events|));
      assert renamed[..n][..n - 1] == renamed[..n - 1];
      assert "a" != "b" && "b" != "c" && "a" != "c" by { assert "a"[0] != "b"[0] && "b"[0] != "c"[0] && "a"[0] != "c"[0]; }
    }
  }

  // A straddle makes the scan miss a completed step of some two-step funnel.
  lemma StraddleUndercounts(window: int, events: seq<Event>, i: nat, j: nat, k: nat)
    requires Straddles(window, events, i, j, k)
    ensures !ScanExact(["a", "b"], window, Named(events, StraddleNames(i, j, k, |events|)))
  {
    var renamed := Named(events, StraddleNames(i, j, k, |events|));
    StraddleScan(window, events, i, j, k, |events|);
    assert renamed[..|events|] == renamed;
    var at: seq<nat> := [j, k];
    assert |at| == 2 && Matches(["a", "b"], renamed, at) && InWindow(window, renamed, at);
    assert CompletesInWindow(["a", "b"], window, renamed, 2);
  }

  // The scan tells which steps were completed in the window, for every funnel
  // and every naming of the events, if and only if no event is in the window of
  // one event and outside that of an earlier one.
  lemma WindowExact(window: int, events: seq<Event>)
    requires InTime(events)
    ensures (forall steps, names: seq<string> {:trigger ScanExact(steps, window, Named(events, names))} ::
              |names| == |events| ==> ScanExact(steps, window, Named(events, names)))
            <==> !HasStraddle(window, events)
  {
    if HasStraddle(window, events) {
      var i, j, k :| Straddles(window, events, i, j, k);
      StraddleUndercounts(window, events, i, j, k);
    } else {
      forall steps, names: seq<string> | |names| == |events| ensures ScanExact(steps, window, Named(events, names)) {
        var renamed := Named(events, names);
        forall i: nat, j: nat, k: nat ensures !Straddles(window, renamed, i, j, k) {
          assert !Straddles(window, events, i, j, k);
        }
        ExactWithoutStraddle(steps, window, renamed);
      }
    }
  }

  // ----- counts over all users

  type Users = map<string, seq<Event>>

  function Reach(steps: seq<string>, window: int, users: Users, i: nat): set<string> {
    set u | u in users && ScanAll(steps, window, users[u]).maxStep > i
  }

  lemma {:induction false} MaxStepBound(steps: seq<string>, window: int, events: seq<Event>)
    ensures var st := ScanAll(steps, window, events);
      st.stepIdx <= |steps| && st.maxStep <= |steps|
  {
    if events != [] { MaxStepBound(steps, window, events[..|events| - 1]); }
  }

  method CountSteps(steps: seq<string>, window: int, users: Users) returns (counts: seq<nat>)
    ensures |counts| == |steps|
    ensures forall i :: 0 <= i < |steps| ==> counts[i] == |Reach(steps, window, users, i)|
  {
    counts := seq(|steps|, _ => 0);
    var todo := users.Keys;
    ghost var done: Users := map[];
    while todo != {}
      invariant todo <= users.Keys && |counts| == |steps|
      invariant done == map u | u in users && u !in todo :: users[u]
      invariant forall i :: 0 <= i < |steps| ==> counts[i] == |Reach(steps, window, done, i)|
      decreases todo
    {
      var u :| u in todo;
      var maxStep := ScanUser(steps, window, users[u]);
      MaxStepBound(steps, window, users[u]);
      ghost var more := done[u := users[u]];
      forall i | 0 <= i < |steps| ensures |Reach(steps, window, more, i)| == |Reach(steps, window, done, i)| + if i < maxStep then 1 else 0 {
        ReachMore(steps, window, done, u, users[u], i);
      }
      counts := Bump(counts, maxStep);
      done := more;
      todo := todo - {u};
    }
    assert done == users;
  }

  lemma ReachMore(steps: seq<string>, window: int, users: Users, u: string, events: seq<Event>, i: nat)
    requires u !in users
    ensures |Reach(steps, window, users[u := events], i)| ==
            |Reach(steps, window, users, i)| + if i < ScanAll(steps, window, events).maxStep then 1 else 0
  {
    var before, after := Reach(steps, window, users, i), Reach(steps, window, users[u := events], i);
    assert after == if i < ScanAll(steps, window, events).maxStep then before + {u} else before;
  }

  method Bump(counts: seq<nat>, maxStep: nat) returns (r: seq<nat>)
    requires maxStep <= |counts|
    ensures |r| == |counts| && forall i :: 0 <= i < |counts| ==> r[i] == counts[i] + if i < maxStep then 1 else 0
  {
    r := counts;
    var i := 0;
    while i < maxStep
      invariant 0 <= i <= maxStep && |r| == |counts|
      invariant forall j :: 0 <= j < |counts| ==> r[j] == counts[j] + if j < i then 1 else 0
    {
      r := r[i := r[i] + 1];
      i := i + 1;
    }
  }

  // Step counts never increase, whatever the events and the window.
  lemma CountsDecrease(steps: seq<string>, window: int, users: Users, i: nat, j: nat)
    requires i <= j
    ensures |Reach(steps, window, users, j)| <= |Reach(steps, window, users, i)|
  {
    var a, b := Reach(steps, window, users, j), Reach(steps, window, users, i);
    assert a <= b;
    SubsetSize(a, b);
  }

  lemma SubsetSize<T>(a: set<T>, b: set<T>)
    requires a <= b
    ensures |a| <= |b|
  {
    assert b == a + (b - a);
  }

  // When nothing comes too late the users counted at a step are exactly those
  // whose events contain the steps up to it as a subsequence.
  lemma CountsAreExact(steps: seq<string>, window: int, users: Users, i: nat)
    requires forall u :: u in users ==> NeverLate(steps, window, users[u])
    ensures Reach(steps, window, users, i) == set u | u in users && Completes(steps, users[u], i + 1)
  {
    forall u | u in users ensures ScanAll(steps, window, users[u]).maxStep > i <==> Completes(steps, users[u], i + 1) {
      GreedyIsOptimal(steps, window, users[u], i + 1);
    }
  }

  // ----- from rows to users

  datatype Row = Row(uid: string, ts: int, name: string)

  function OfUser(uid: string): Row -> bool {
    (r: Row) => r.uid == uid
  }

  function EventOf(): Row -> Event {
    (r: Row) => Event(r.ts, r.name)
  }

  function ByTs(): Cmp<Event> {
    (a: Event, b: Event) => if a.ts < b.ts then Less else if a.ts == b.ts then Equal else Greater
  }

  function UserRows(rows: seq<Row>, uid: string): seq<Event> {
    Map(Filter(rows, OfUser(uid)), EventOf())
  }

  function Uids(rows: seq<Row>): set<string> {
    set i | 0 <= i < |rows| && rows[i].uid != "" :: rows[i].uid
  }

  // Rows with an empty user are skipped; the others are grouped and each group
  // is sorted by time, ties in row order.
  function UsersOf(rows: seq<Row>): Users {
    map u | u in Uids(rows) :: StableSort(UserRows(rows, u), ByTs())
  }

  lemma OneMoreRow(rows: seq<Row>, i: nat, u: string)
    requires i < |rows|
    ensures UserRows(rows[..i + 1], u) == UserRows(rows[..i], u) + if rows[i].uid == u then [Event(rows[i].ts, rows[i].name)] else []
  {
    FilterSnoc(rows, i, OfUser(u));
  }

  lemma {:induction false} HasRows(rows: seq<Row>, u: string)
    ensures u in Uids(rows) <==> u != "" && UserRows(rows, u) != []
  {
    if rows != [] {
      var n := |rows| - 1;
      HasRows(rows[..n], u);
      OneMoreRow(rows, n, u);
      assert rows[..n + 1] == rows;
      assert u in Uids(rows) <==> u in Uids(rows[..n]) || (u != "" && u == rows[n].uid) by {
        assert forall k :: 0 <= k < n ==> rows[k] == rows[..n][k];
      }
    }
  }

  ghost predicate Grouped(rows: seq<Row>, groups: Users) {
    && (forall u :: u != "" ==> UserRows(rows, u) == if u in groups then groups[u] else [])
    && (forall u :: u in groups ==> u != "" && groups[u] != [])
  }

  lemma GroupedMore(rows: seq<Row>, i: nat, groups: Users)
    requires i < |rows| && Grouped(rows[..i], groups)
    ensures rows[i].uid == "" ==> Grouped(rows[..i + 1], groups)
    ensures rows[i].uid != "" ==> Grouped(rows[..i + 1],
              groups[rows[i].uid := (if rows[i].uid in groups then groups[rows[i].uid] else []) + [Event(rows[i].ts, rows[i].name)]])
  {
    forall u | u != ""
      ensures UserRows(rows[..i + 1], u) == (if u in groups then groups[u] else []) + if rows[i].uid == u then [Event(rows[i].ts, rows[i].name)] else []
    {
      OneMoreRow(rows, i, u);
    }
  }

  method GroupRows(rows: seq<Row>) returns (groups: Users)
    ensures Grouped(rows, groups)
  {
    groups := map[];
    var i := 0;
    while i < |rows|
      invariant 0 <= i <= |rows| && Grouped(rows[..i], groups)
    {
      var r := rows[i];
      GroupedMore(rows, i, groups);
      if r.uid != "" {
        groups := groups[r.uid := (if r.uid in groups then groups[r.uid] else []) + [Event(r.ts, r.name)]];
      }
      i := i + 1;
    }
    assert rows[..i] == rows;
  }

  method SortGroups(groups: Users) returns (users: Users)
    ensures users == map u | u in groups :: StableSort(groups[u], ByTs())
  {
    users := groups;
    var todo := groups.Keys;
    while todo != {}
      invariant todo <= groups.Keys == users.Keys
      invariant forall u :: u in users ==> users[u] == if u in todo then groups[u] else StableSort(groups[u], ByTs())
      decreases todo
    {
      var u :| u in todo;
      users := users[u := StableSort(users[u], ByTs())];
      todo := todo - {u};
    }
  }

  lemma ByTsPreorder()
    ensures TotalPreorder(ByTs())
  {
  }

  // Counted are the users that some row names, each with the events of exactly
  // the user's rows, in order of time; rows without a user count for nobody.
  lemma UsersExact(rows: seq<Row>, u: string)
    ensures u in UsersOf(rows) <==> u != "" && exists i :: 0 <= i < |rows| && rows[i].uid == u
    ensures u in UsersOf(rows) ==> InTime(UsersOf(rows)[u]) && multiset(UsersOf(rows)[u]) == multiset(UserRows(rows, u))
  {
    if u in Uids(rows) {
      ByTsPreorder();
      PassSortedAlone(UserRows(rows, u), ByTs());
      SortElements(UserRows(rows, u), ByTs());
      var events := UsersOf(rows)[u];
      assert forall a, b :: 0 <= a < b < |events| ==> ByTs()(events[a], events[b]) != Greater;
    }
  }

  // If no user's events straddle the window, the users counted at a step are
  // exactly those who completed the steps up to it within the window.
  lemma CountsInWindow(steps: seq<string>, window: int, rows: seq<Row>, i: nat)
    requires forall u :: u in UsersOf(rows) ==> !HasStraddle(window, UsersOf(rows)[u])
    ensures Reach(steps, window, UsersOf(rows), i) == set u | u in UsersOf(rows) && CompletesInWindow(steps, window, UsersOf(rows)[u], i + 1)
  {
    var users := UsersOf(rows);
    ByTsPreorder();
    forall u | u in users ensures ScanAll(steps, window, users[u]).maxStep > i <==> CompletesInWindow(steps, window, users[u], i + 1) {
      PassSortedAlone(UserRows(rows, u), ByTs());
      assert InTime(users[u]) by {
        assert forall a, b :: 0 <= a < b < |users[u]| ==> ByTs()(users[u][a], users[u][b]) != Greater;
      }
      ExactWithoutStraddle(steps, window, users[u]);
      assert i + 1 <= ScanAll(steps, window, users[u]).maxStep <==> CompletesInWindow(steps, window, users[u], i + 1);
    }
  }

  // The whole count: `counts[i]` users reach step `i + 1`.
  method ExecuteFunnelCount(steps: seq<string>, window: int, rows: seq<Row>) returns (counts: seq<nat>)
    ensures |counts| == |steps|
    ensures forall i :: 0 <= i < |steps| ==> counts[i] == |Reach(steps, window, UsersOf(rows), i)|
  {
    if steps == [] { return []; }
    var groups := GroupRows(rows);
    var users := SortGroups(groups);
    forall u ensures u in users <==> u in UsersOf(rows) {
      HasRows(rows, u);
    }
    assert users == UsersOf(rows);
    counts := CountSteps(steps, window, users);
  }

  // ----- the executor's dates

  function PlainLength(m: int): int
    requires 1 <= m <= 12
  {
    if m == 2 then 28 else if m == 4 || m == 6 || m == 9 || m == 11 then 30 else 31
  }

  function PlainMonthStart(m: int): int
    requires 1 <= m <= 12
    decreases m
  {
    if m == 1 then 0 else PlainMonthStart(m - 1) + PlainLength(m - 1)
  }

  // The day number the executor computes: every year has 365 days.
  function PlainDay(d: Date): int
    requires d.Valid()
  {
    (d.year - 1970) * 365 + PlainMonthStart(d.month) + d.day - 1
  }

  lemma {:induction false} PlainMonths(m: int, n: int)
    requires 1 <= m < n <= 12
    ensures PlainMonthStart(m) + PlainLength(m) <= PlainMonthStart(n)
    ensures m + 1 < n ==> PlainMonthStart(m) + PlainLength(m) + 28 <= PlainMonthStart(n)
    decreases n
  {
    if m + 1 < n { PlainMonths(m, n - 1); }
  }

  lemma {:induction false} PlainYear(m: int)
    requires 1 <= m <= 12
    ensures 0 <= PlainMonthStart(m) && PlainMonthStart(m) + PlainLength(m) <= 365
    ensures m < 12 ==> PlainMonthStart(m) + PlainLength(m) <= 334
    decreases 12 - m
  {
    assert PlainMonthStart(12) == 334;
    if m < 12 { PlainMonths(m, 12); }
    if m > 1 { PlainMonths(1, m); }
  }

  lemma MonthOrder(d: Date, e: Date)
    requires d.Valid() && e.Valid() && DayNumber(d) < DayNumber(e)
    ensures MonthIndex(d.year, d.month) <= MonthIndex(e.year, e.month)
  {
    InMonth(d);
    InMonth(e);
    MonthsClimb();
    UnitOrder(Months(), MonthIndex(d.year, d.month), MonthIndex(e.year, e.month), DayNumber(d), DayNumber(e));
  }

  predicate LeapDayPair(d: Date, e: Date) {
    d.month == 2 && d.day == 29 && e == Date(d.year, 3, 1)
  }

  lemma PlainMonthOrder(d: Date, e: Date)
    requires d.Valid() && e.Valid() && d.year == e.year && d.month < e.month
    ensures PlainDay(d) <= PlainDay(e) && (PlainDay(d) == PlainDay(e) <==> LeapDayPair(d, e))
  {
    PlainMonths(d.month, e.month);
    if d.month == 2 && e.month == 3 { assert PlainMonthStart(3) == PlainMonthStart(2) + 28; }
  }

  // The executor's day numbers keep the order of dates, except that 29 February
  // and 1 March of the same year become the same day.
  lemma PlainDaysExact(d: Date, e: Date)
    requires d.Valid() && e.Valid() && DayNumber(d) < DayNumber(e)
    ensures PlainDay(d) <= PlainDay(e) && (PlainDay(d) == PlainDay(e) <==> LeapDayPair(d, e))
  {
    MonthOrder(d, e);
    if d.year == e.year {
      if d.month < e.month { PlainMonthOrder(d, e); }
    } else {
      PlainYear(d.month);
      PlainYear(e.month);
    }
  }

  predicate LeapDay(d: Date) {
    d.month == 2 && d.day == 29
  }

  // How many of the days numbered `m` to `n - 1` are a 29 February.
  function LeapDays(m: int, n: int): int
    requires m <= n
    decreases n - m
  {
    if m == n then 0 else LeapDays(m, n - 1) + if LeapDay(DateOf(n - 1)) then 1 else 0
  }

  function NextDate(d: Date): Date
    requires d.Valid()
  {
    if d.day < MonthLength(d.year, d.month) then Date(d.year, d.month, d.day + 1)
    else if d.month < 12 then Date(d.year, d.month + 1, 1)
    else Date(d.year + 1, 1, 1)
  }

  lemma NextDateIsNext(d: Date)
    requires d.Valid()
    ensures NextDate(d).Valid() && DayNumber(NextDate(d)) == DayNumber(d) + 1
  {
    if d.month == 12 { MonthsFillYear(d.year); }
  }

  lemma PlainNext(d: Date)
    requires d.Valid()
    ensures NextDate(d).Valid() && PlainDay(NextDate(d)) == PlainDay(d) + if LeapDay(d) then 0 else 1
  {
    NextDateIsNext(d);
    if d.month == 12 { assert PlainMonthStart(12) == 334; }
  }

  function PlainDayOf(n: int): int {
    PlainDay(DateOf(n))
  }

  lemma PlainStep(n: int)
    ensures PlainDayOf(n + 1) == PlainDayOf(n) + if LeapDay(DateOf(n)) then 0 else 1
  {
    NextDateIsNext(DateOf(n));
    DateIsUnique(NextDate(DateOf(n)), DateOf(n + 1));
    PlainNext(DateOf(n));
  }

  lemma {:induction false} PlainSpan(m: int, n: int)
    requires m <= n
    ensures PlainDayOf(n) - PlainDayOf(m) == n - m - LeapDays(m, n)
    decreases n - m
  {
    if m < n {
      PlainSpan(m, n - 1);
      PlainStep(n - 1);
    }
  }

  // The executor's distance between two dates is the true one less the leap
  // days passed over.
  lemma PlainDistance(d: Date, e: Date)
    requires d.Valid() && e.Valid() && DayNumber(d) <= DayNumber(e)
    ensures PlainDay(e) - PlainDay(d) == DayNumber(e) - DayNumber(d) - LeapDays(DayNumber(d), DayNumber(e))
  {
    PlainSpan(DayNumber(d), DayNumber(e));
    DateIsUnique(d, DateOf(DayNumber(d)));
    DateIsUnique(e, DateOf(DayNumber(e)));
  }
}
