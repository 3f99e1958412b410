// Sessionization: each user's events, sorted by time, are cut wherever the gap
// to the previous event exceeds the timeout.
module Sessionize {
  import opened Common
  import opened Sorting

  datatype EventRow = EventRow(user: string, time: int, name: string)

  datatype SessionRow = SessionRow(user: string, start: int, end: int, count: nat, names: seq<string>, duration: int)

  // ----- segmentations

  type Segments = seq<seq<EventRow>>

  function Concat<T>(segs: seq<seq<T>>): seq<T> {
    if segs == [] then [] else Concat(segs[..|segs| - 1]) + segs[|segs| - 1]
  }

  predicate Close(t: int, a: EventRow, b: EventRow) {
    b.time - a.time <= t
  }

  ghost predicate NoneEmpty(segs: Segments) {
    forall i :: 0 <= i < |segs| ==> segs[i] != []
  }

  // Consecutive events inside a segment are at most the timeout apart.
  ghost predicate CloseInside(segs: Segments, t: int) {
    forall i, j :: 0 <= i < |segs| && 0 < j < |segs[i]| ==> Close(t, segs[i][j - 1], segs[i][j])
  }

  // Consecutive segments are more than the timeout apart.
  ghost predicate FarBetween(segs: Segments, t: int)
    requires NoneEmpty(segs)
  {
    forall i :: 0 < i < |segs| ==> !Close(t, Last(segs[i - 1]), segs[i][0])
  }

  ghost predicate IsSegmentation(segs: Segments, events: seq<EventRow>, t: int) {
    Concat(segs) == events && NoneEmpty(segs) && CloseInside(segs, t) && FarBetween(segs, t)
  }

  function Last<T>(s: seq<T>): T
    requires s != []
  {
    s[|s| - 1]
  }

  function Init<T>(s: seq<T>): seq<T>
    requires s != []
  {
    s[..|s| - 1]
  }

  // One more event: it joins the last segment or starts a new one.
  function Extend(segs: Segments, e: EventRow, t: int): Segments {
    if segs == [] || Last(segs) == [] || !Close(t, Last(Last(segs)), e) then segs + [[e]]
    else Init(segs) + [Last(segs) + [e]]
  }

  function Segment(events: seq<EventRow>, t: int): Segments {
    if events == [] then [] else Extend(Segment(Init(events), t), Last(events), t)
  }

  lemma ConcatSnoc<T>(segs: seq<seq<T>>, s: seq<T>)
    ensures Concat(segs + [s]) == Concat(segs) + s
  {
    assert (segs + [s])[..|segs|] == segs;
  }

  lemma ExtendConcat(segs: Segments, e: EventRow, t: int)
    ensures Concat(Extend(segs, e, t)) == Concat(segs) + [e]
  {
    if segs == [] || Last(segs) == [] || !Close(t, Last(Last(segs)), e) {
      ConcatSnoc(segs, [e]);
    } else {
      ConcatSnoc(Init(segs), Last(segs) + [e]);
    }
  }

  lemma ExtendIsSegmentation(segs: Segments, events: seq<EventRow>, e: EventRow, t: int)
    requires IsSegmentation(segs, events, t)
    ensures IsSegmentation(Extend(segs, e, t), events + [e], t)
  {
    ExtendConcat(segs, e, t);
    if segs != [] && Close(t, Last(Last(segs)), e) { JoinKeepsGaps(segs, e, t); } else { SplitKeepsGaps(segs, e, t); }
  }

  lemma SplitKeepsGaps(segs: Segments, e: EventRow, t: int)
    requires NoneEmpty(segs) && CloseInside(segs, t) && FarBetween(segs, t) && (segs == [] || !Close(t, Last(Last(segs)), e))
    ensures var r := segs + [[e]];
      NoneEmpty(r) && CloseInside(r, t) && FarBetween(r, t)
  {
  }

  lemma JoinKeepsGaps(segs: Segments, e: EventRow, t: int)
    requires segs != [] && NoneEmpty(segs) && CloseInside(segs, t) && FarBetween(segs, t) && Close(t, Last(Last(segs)), e)
    ensures var r := Init(segs) + [Last(segs) + [e]];
      NoneEmpty(r) && CloseInside(r, t) && FarBetween(r, t)
  {
    var r, k := Init(segs) + [Last(segs) + [e]], |segs| - 1;
    forall i, j | 0 <= i < |r| && 0 < j < |r[i]| ensures Close(t, r[i][j - 1], r[i][j]) {
      if i < k || j < |segs[k]| { assert Close(t, segs[i][j - 1], segs[i][j]); }
    }
    forall i | 0 < i < |r| ensures !Close(t, Last(r[i - 1]), r[i][0]) {
      assert !Close(t, Last(segs[i - 1]), segs[i][0]);
    }
  }

  // The cutting rule gives a segmentation for every list of events.
  lemma {:induction false} SegmentIsSegmentation(events: seq<EventRow>, t: int)
    ensures IsSegmentation(Segment(events, t), events, t)
  {
    if events != [] {
      SegmentIsSegmentation(Init(events), t);
      ExtendIsSegmentation(Segment(Init(events), t), Init(events), Last(events), t);
      assert Init(events) + [Last(events)] == events;
    }
  }

  // A segmentation without its last event.
  function TrimLast(segs: Segments): Segments
    requires segs != [] && Last(segs) != []
  {
    if |Last(segs)| == 1 then Init(segs) else Init(segs) + [Init(Last(segs))]
  }

  lemma TrimConcat(segs: Segments)
    requires segs != [] && Last(segs) != []
    ensures Concat(segs) == Concat(TrimLast(segs)) + [Last(Last(segs))]
  {
    var last := Last(segs);
    assert last == Init(last) + [Last(last)];
    if |last| > 1 { ConcatSnoc(Init(segs), Init(last)); }
  }

  lemma TrimKeepsGaps(segs: Segments, t: int)
    requires segs != [] && NoneEmpty(segs) && CloseInside(segs, t) && FarBetween(segs, t)
    ensures var r := TrimLast(segs); NoneEmpty(r) && CloseInside(r, t) && FarBetween(r, t)
  {
    var r := TrimLast(segs);
    forall i, j | 0 <= i < |r| && 0 < j < |r[i]| ensures Close(t, r[i][j - 1], r[i][j]) {
      assert Close(t, segs[i][j - 1], segs[i][j]);
    }
    forall i | 0 < i < |r| ensures !Close(t, Last(r[i - 1]), r[i][0]) {
      assert !Close(t, Last(segs[i - 1]), segs[i][0]);
    }
  }

  lemma ExtendTrimmed(segs: Segments, t: int)
    requires segs != [] && NoneEmpty(segs) && CloseInside(segs, t) && FarBetween(segs, t)
    ensures Extend(TrimLast(segs), Last(Last(segs)), t) == segs
  {
    var k, last := |segs| - 1, Last(segs);
    assert segs == Init(segs) + [last] && last == Init(last) + [Last(last)];
    if |last| == 1 {
      if k > 0 { assert !Close(t, Last(segs[k - 1]), segs[k][0]); }
    } else {
      assert Close(t, segs[k][|last| - 2], segs[k][|last| - 1]);
    }
  }

  lemma TrimIsSegmentation(segs: Segments, events: seq<EventRow>, t: int)
    requires IsSegmentation(segs, events, t) && events != []
    ensures segs != [] && Last(segs) != [] && Last(Last(segs)) == Last(events)
    ensures IsSegmentation(TrimLast(segs), Init(events), t)
    ensures Extend(TrimLast(segs), Last(events), t) == segs
  {
    assert segs != [] && Last(segs) != [];
    TrimConcat(segs);
    TrimKeepsGaps(segs, t);
    ExtendTrimmed(segs, t);
  }

  // There is no other segmentation.
  lemma {:induction false} SegmentationIsUnique(segs: Segments, events: seq<EventRow>, t: int)
    requires IsSegmentation(segs, events, t)
    ensures segs == Segment(events, t)
    decreases |events|
  {
    if events == [] {
      assert segs == [] || |Concat(segs)| >= |Last(segs)|;
    } else {
      TrimIsSegmentation(segs, events, t);
      SegmentationIsUnique(TrimLast(segs), Init(events), t);
    }
  }

  // ----- a larger timeout

  // `groups` splits the fine segments, in order, into one group per coarse
  // segment, and each coarse segment is its group joined.
  ghost predicate Merges(groups: seq<Segments>, fine: Segments, coarse: Segments) {
    && Concat(groups) == fine
    && |groups| == |coarse|
    && forall i :: 0 <= i < |groups| ==> groups[i] != [] && Concat(groups[i]) == coarse[i]
  }

  lemma GroupsEnd(groups: seq<Segments>, fine: Segments, coarse: Segments)
    requires Merges(groups, fine, coarse) && groups != []
    ensures fine != [] && Last(fine) == Last(Last(groups)) && Init(fine) == Concat(Init(groups)) + Init(Last(groups))
    ensures Last(coarse) == Concat(Init(Last(groups))) + Last(fine)
  {
    var g := Last(groups);
    assert g == Init(g) + [Last(g)];
    assert fine == Concat(Init(groups)) + g;
  }

  // Replacing the last group.
  lemma LastGroup(groups: seq<Segments>, fine: Segments, coarse: Segments, g: Segments, e: EventRow)
    requires Merges(groups, fine, coarse) && groups != [] && g != [] && Concat(g) == Last(coarse) + [e]
    ensures Merges(Init(groups) + [g], Concat(Init(groups)) + g, Init(coarse) + [Last(coarse) + [e]])
  {
    ConcatSnoc(Init(groups), g);
    var after, merged := Init(groups) + [g], Init(coarse) + [Last(coarse) + [e]];
    forall i | 0 <= i < |after| ensures after[i] != [] && Concat(after[i]) == merged[i] {
      if i < |groups| - 1 { assert after[i] == groups[i]; }
    }
  }

  lemma JoinBoth(groups: seq<Segments>, fine: Segments, coarse: Segments, e: EventRow) returns (after: seq<Segments>)
    requires Merges(groups, fine, coarse) && fine != []
    ensures coarse != [] && Merges(after, Init(fine) + [Last(fine) + [e]], Init(coarse) + [Last(coarse) + [e]])
  {
    assert groups != [];
    GroupsEnd(groups, fine, coarse);
    var g := Init(Last(groups)) + [Last(fine) + [e]];
    ConcatSnoc(Init(Last(groups)), Last(fine) + [e]);
    LastGroup(groups, fine, coarse, g, e);
    after := Init(groups) + [g];
    assert Concat(Init(groups)) + g == Init(fine) + [Last(fine) + [e]];
  }

  lemma JoinCoarse(groups: seq<Segments>, fine: Segments, coarse: Segments, e: EventRow) returns (after: seq<Segments>)
    requires Merges(groups, fine, coarse) && fine != []
    ensures coarse != [] && Merges(after, fine + [[e]], Init(coarse) + [Last(coarse) + [e]])
  {
    assert groups != [];
    var g := Last(groups) + [[e]];
    ConcatSnoc(Last(groups), [e]);
    LastGroup(groups, fine, coarse, g, e);
    after := Init(groups) + [g];
    assert fine == Concat(Init(groups)) + Last(groups);
    assert Concat(Init(groups)) + g == fine + [[e]];
  }

  lemma SplitBoth(groups: seq<Segments>, fine: Segments, coarse: Segments, e: EventRow) returns (after: seq<Segments>)
    requires Merges(groups, fine, coarse)
    ensures Merges(after, fine + [[e]], coarse + [[e]])
  {
    after := groups + [[[e]]];
    ConcatSnoc(groups, [[e]]);
    assert Concat([[e]]) == [e] by { assert [[e]][..0] == []; }
  }

  // The last event of both segmentations is the last event of the list.
  lemma LastEvent(events: seq<EventRow>, t: int)
    requires events != []
    ensures var segs := Segment(events, t);
      segs != [] && Last(segs) != [] && Last(Last(segs)) == Last(events)
  {
    SegmentIsSegmentation(events, t);
    TrimIsSegmentation(Segment(events, t), events, t);
  }

  // A larger timeout only merges whole neighbouring sessions.
  lemma {:induction false} LargerTimeoutMerges(events: seq<EventRow>, t: int, u: int) returns (groups: seq<Segments>)
    requires t <= u
    ensures Merges(groups, Segment(events, t), Segment(events, u))
  {
    groups := [];
    if events != [] {
      var before, e := Init(events), Last(events);
      var fine, coarse := Segment(before, t), Segment(before, u);
      var g := LargerTimeoutMerges(before, t, u);
      if before == [] {
        groups := SplitBoth(g, fine, coarse, e);
      } else {
        LastEvent(before, t);
        LastEvent(before, u);
        if Close(t, Last(before), e) {
          groups := JoinBoth(g, fine, coarse, e);
        } else if Close(u, Last(before), e) {
          groups := JoinCoarse(g, fine, coarse, e);
        } else {
          groups := SplitBoth(g, fine, coarse, e);
        }
      }
    }
  }

  // ----- session rows

  function EventNames(seg: seq<EventRow>): seq<string> {
    seq(|seg|, i requires 0 <= i < |seg| => seg[i].name)
  }

  function Summary(user: string, seg: seq<EventRow>): SessionRow
    requires seg != []
  {
    SessionRow(user, seg[0].time, Last(seg).time, |seg|, EventNames(seg), Last(seg).time - seg[0].time)
  }

  ghost function Summaries(user: string, segs: Segments): seq<SessionRow>
    requires NoneEmpty(segs)
  {
    seq(|segs|, i requires 0 <= i < |segs| => Summary(user, segs[i]))
  }

  function NewSession(user: string, e: EventRow): SessionRow {
    SessionRow(user, e.time, e.time, 1, [e.name], 0)
  }

  function WithEvent(s: SessionRow, e: EventRow): SessionRow {
    s.(end := e.time, count := s.count + 1, names := s.names + [e.name], duration := e.time - s.start)
  }

  lemma SummaryGrows(user: string, seg: seq<EventRow>, e: EventRow)
    ensures Summary(user, [e]) == NewSession(user, e)
    ensures seg != [] ==> Summary(user, seg + [e]) == WithEvent(Summary(user, seg), e)
  {
    assert EventNames(seg + [e]) == EventNames(seg) + [e.name];
  }

  ghost function SessionsOf(user: string, events: seq<EventRow>, t: int): seq<SessionRow> {
    SegmentIsSegmentation(events, t);
    Summaries(user, Segment(events, t))
  }

  // The sessions are the summaries of the one segmentation of the events.
  method BuildSessions(timeout: int, user: string, events: seq<EventRow>) returns (sessions: seq<SessionRow>)
    ensures sessions == SessionsOf(user, events, timeout)
  {
    sessions := [];
    if events == [] { return; }
    var current := NewSession(user, events[0]);
    ghost var done: Segments, open := [], [events[0]];
    assert events[..1] == [events[0]] && Init(events[..1]) == [];
    SummaryGrows(user, [], events[0]);
    var i := 1;
    while i < |events|
      invariant 1 <= i <= |events| && open != [] && NoneEmpty(done)
      invariant Segment(events[..i], timeout) == done + [open] && Last(open) == events[i - 1]
      invariant sessions == Summaries(user, done) && current == Summary(user, open)
    {
      var e := events[i];
      assert Init(events[..i + 1]) == events[..i] && Last(events[..i + 1]) == e;
      assert Init(done + [open]) == done;
      SummaryGrows(user, open, e);
      if e.time - current.end > timeout {
        sessions := sessions + [current];
        current := NewSession(user, e);
        done, open := done + [open], [e];
      } else {
        current := WithEvent(current, e);
        open := open + [e];
      }
      i := i + 1;
    }
    sessions := sessions + [current];
    assert events[..i] == events;
  }

  // ----- what the rows add up to

  function AllNames(rows: seq<SessionRow>): seq<string> {
    if rows == [] then [] else AllNames(rows[..|rows| - 1]) + rows[|rows| - 1].names
  }

  function TotalCount(rows: seq<SessionRow>): nat {
    if rows == [] then 0 else TotalCount(rows[..|rows| - 1]) + rows[|rows| - 1].count
  }

  lemma {:induction false} SummariesAddUp(user: string, segs: Segments)
    requires NoneEmpty(segs)
    ensures AllNames(Summaries(user, segs)) == EventNames(Concat(segs)) && TotalCount(Summaries(user, segs)) == |Concat(segs)|
  {
    if segs != [] {
      SummariesAddUp(user, Init(segs));
      assert Summaries(user, segs)[..|segs| - 1] == Summaries(user, Init(segs));
      assert EventNames(Concat(Init(segs)) + Last(segs)) == EventNames(Concat(Init(segs))) + EventNames(Last(segs));
    }
  }

  // No event is lost or counted twice: the rows' names in order are the events'
  // and their counts add up to the number of events. Each row is of that user
  // and agrees with itself: as many names as it counts, and lasting from its
  // start to its end.
  lemma SessionsAddUp(user: string, events: seq<EventRow>, t: int)
    ensures var rows := SessionsOf(user, events, t);
      && |AllNames(rows)| == |events| == TotalCount(rows)
      && (forall i :: 0 <= i < |events| ==> AllNames(rows)[i] == events[i].name)
      && (forall i :: 0 <= i < |rows| ==>
            && rows[i].user == user && rows[i].count == |rows[i].names| > 0
            && rows[i].start + rows[i].duration == rows[i].end)
  {
    SegmentIsSegmentation(events, t);
    SummariesAddUp(user, Segment(events, t));
  }

  // ----- all users

  function ByTime(): Cmp<EventRow> {
    (a: EventRow, b: EventRow) => if a.time < b.time then Less else if a.time == b.time then Equal else Greater
  }

  function OfUser(user: string): EventRow -> bool {
    (e: EventRow) => e.user == user
  }

  function SessionOfUser(user: string): SessionRow -> bool {
    (s: SessionRow) => s.user == user
  }

  // A user's events in order of time, ties in input order.
  function UserEvents(events: seq<EventRow>, user: string): seq<EventRow> {
    StableSort(Filter(events, OfUser(user)), ByTime())
  }

  lemma SummariesOfUser(user: string, segs: Segments, v: string)
    requires NoneEmpty(segs)
    ensures Filter(Summaries(user, segs), SessionOfUser(v)) == if v == user then Summaries(user, segs) else []
  {
    var rows := Summaries(user, segs);
    if v == user { FilterAll(rows, SessionOfUser(v)); } else { FilterNone(rows, SessionOfUser(v)); }
  }

  ghost function Finished(events: seq<EventRow>, timeout: int, users: set<string>, user: string): seq<SessionRow> {
    if user in users then SessionsOf(user, UserEvents(events, user), timeout) else []
  }

  // Each user's sessions, in order, are those of the user's sorted events; the
  // order in which users come out is not specified.
  method SessionizeAll(timeout: int, events: seq<EventRow>) returns (sessions: seq<SessionRow>)
    ensures forall user :: Filter(sessions, SessionOfUser(user)) == SessionsOf(user, UserEvents(events, user), timeout)
  {
    var byUser := GroupByUser(events);
    sessions := [];
    var todo := byUser.Keys;
    while todo != {}
      invariant todo <= byUser.Keys
      invariant forall user :: Filter(sessions, SessionOfUser(user)) == Finished(events, timeout, byUser.Keys - todo, user)
      decreases todo
    {
      var user :| user in todo;
      var rows := BuildSessions(timeout, user, StableSort(byUser[user], ByTime()));
      forall v ensures Filter(sessions + rows, SessionOfUser(v)) == Filter(sessions, SessionOfUser(v)) + if v == user then rows else [] {
        FilterAppend(sessions, rows, SessionOfUser(v));
        SegmentIsSegmentation(UserEvents(events, user), timeout);
        SummariesOfUser(user, Segment(UserEvents(events, user), timeout), v);
      }
      sessions := sessions + rows;
      todo := todo - {user};
    }
    forall user ensures Filter(sessions, SessionOfUser(user)) == SessionsOf(user, UserEvents(events, user), timeout) {
      if user !in byUser { assert Filter(events, OfUser(user)) == []; }
    }
  }

  method GroupByUser(events: seq<EventRow>) returns (byUser: map<string, seq<EventRow>>)
    ensures forall user :: Filter(events, OfUser(user)) == if user in byUser then byUser[user] else []
  {
    byUser := map[];
    var i := 0;
    while i < |events|
      invariant 0 <= i <= |events|
      invariant forall user :: Filter(events[..i], OfUser(user)) == if user in byUser then byUser[user] else []
    {
      var e := events[i];
      ghost var before := byUser;
      byUser := byUser[e.user := (if e.user in byUser then byUser[e.user] else []) + [e]];
      forall user ensures Filter(events[..i + 1], OfUser(user)) == if user in byUser then byUser[user] else [] {
        FilterSnoc(events, i, OfUser(user));
        assert Filter(events[..i], OfUser(user)) == if user in before then before[user] else [];
      }
      i := i + 1;
    }
    assert events[..i] == events;
  }

  // In time order no session ends before it starts, its events are at most the
  // timeout apart, and it starts more than the timeout after the previous end.
  lemma {:induction false} SessionTimes(events: seq<EventRow>, t: int, i: nat)
    requires Sorted(events, ByTime()) && t >= 0 && i < |Segment(events, t)|
    ensures var segs := Segment(events, t);
      && segs[i] != [] && segs[i][0].time <= Last(segs[i]).time
      && (forall j :: 0 < j < |segs[i]| ==> segs[i][j].time <= segs[i][j - 1].time + t)
      && (i > 0 ==> segs[i - 1] != [] && segs[i][0].time > Last(segs[i - 1]).time + t)
  {
    SegmentIsSegmentation(events, t);
    var segs := Segment(events, t);
    InOrder(segs, i);
    forall j | 0 < j < |segs[i]| ensures segs[i][j].time <= segs[i][j - 1].time + t {
      assert Close(t, segs[i][j - 1], segs[i][j]);
    }
    if i > 0 { assert !Close(t, Last(segs[i - 1]), segs[i][0]); }
  }

  lemma {:induction false} InOrder(segs: Segments, i: nat)
    requires i < |segs| && segs[i] != [] && Sorted(Concat(segs), ByTime())
    ensures segs[i][0].time <= Last(segs[i]).time
    decreases |segs|
  {
    var all, front := Concat(segs), Concat(Init(segs));
    if i == |segs| - 1 {
      var k := |front|;
      assert all[k] == segs[i][0] && all[|all| - 1] == Last(segs[i]);
      if k < |all| - 1 { assert ByTime()(all[k], all[|all| - 1]) != Greater; }
    } else {
      forall a, b | 0 <= a < b < |front| ensures ByTime()(front[a], front[b]) != Greater {
        assert all[a] == front[a] && all[b] == front[b];
      }
      InOrder(Init(segs), i);
    }
  }

  lemma UserEventsSorted(events: seq<EventRow>, user: string)
    ensures Sorted(UserEvents(events, user), ByTime()) && multiset(UserEvents(events, user)) == multiset(Filter(events, OfUser(user)))
  {
    PassSortedAlone(Filter(events, OfUser(user)), ByTime());
    SortElements(Filter(events, OfUser(user)), ByTime());
  }
}
