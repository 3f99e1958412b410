// Automatic time partitions: the partition of one calendar unit, and a list of
// partitions with distinct names and disjoint ranges.
module Partition {
  import opened Calendar
  import opened Common
  import opened Sorting
  import opened Text

  datatype Granularity = Daily | Monthly | Yearly

  datatype PartitionKey = PartitionKey(name: string, lo: int, hi: int) {
    predicate Contains(ts: int) {
      ts >= lo && ts < hi
    }
  }

  const DAY: int := 86400

  // The first and last second the date library can represent.
  datatype Bounds = Bounds(min: int, max: int) {
    predicate Holds(ts: int) {
      min <= ts <= max
    }
  }

  // ----- one partition

  function Name(g: Granularity, d: Date): string {
    match g
    case Daily => "p_" + Padded(d.year, 4) + ("_" + Padded(d.month, 2) + "_" + Padded(d.day, 2))
    case Monthly => "p_" + Padded(d.year, 4) + ("_" + Padded(d.month, 2))
    case Yearly => "p_" + Padded(d.year, 4) + ""
  }

  function FirstDay(g: Granularity, d: Date): int
    requires d.Valid()
  {
    match g
    case Daily => DayNumber(d)
    case Monthly => MonthStart(d.year, d.month)
    case Yearly => YearStart(d.year)
  }

  function NextDay(g: Granularity, d: Date): int
    requires d.Valid()
  {
    match g
    case Daily => DayNumber(d) + 1
    case Monthly => if d.month == 12 then MonthStart(d.year + 1, 1) else MonthStart(d.year, d.month + 1)
    case Yearly => YearStart(d.year + 1)
  }

  // A timestamp the library cannot represent is replaced by the present. The
  // call panics, here `None`, when the unit's end cannot be represented.
  function CreatePartition(g: Granularity, b: Bounds, now: int, ts: int): Option<PartitionKey> {
    var d := DateOf((if b.Holds(ts) then ts else now) / DAY);
    var hi := NextDay(g, d) * DAY;
    if hi > b.max then None else Some(PartitionKey(Name(g, d), FirstDay(g, d) * DAY, hi))
  }

  // ----- calendar units

  function Starts(g: Granularity): int -> int {
    match g
    case Daily => (k: int) => k
    case Monthly => Months()
    case Yearly => Years()
  }

  function UnitOf(g: Granularity, d: Date): int
    requires d.Valid()
  {
    match g
    case Daily => DayNumber(d)
    case Monthly => MonthIndex(d.year, d.month)
    case Yearly => d.year
  }

  function UnitDate(g: Granularity, k: int): (d: Date)
    ensures d.Valid()
  {
    match g
    case Daily => DateOf(k)
    case Monthly => Date(k / 12, k % 12 + 1, 1)
    case Yearly => Date(k, 1, 1)
  }

  // The partition of the calendar unit `k`.
  function UnitPartition(g: Granularity, k: int): PartitionKey {
    PartitionKey(Name(g, UnitDate(g, k)), Starts(g)(k) * DAY, Starts(g)(k + 1) * DAY)
  }

  // The unit that a timestamp falls in.
  function UnitAt(g: Granularity, ts: int): int {
    UnitOf(g, DateOf(ts / DAY))
  }

  // The calendar partition of a timestamp.
  function PartitionAt(g: Granularity, ts: int): PartitionKey {
    UnitPartition(g, UnitAt(g, ts))
  }

  lemma UnitsClimb(g: Granularity)
    ensures Increasing(Starts(g))
  {
    match g
    case Daily =>
      forall k ensures Climbs(Starts(g), k) {
      }
    case Monthly => MonthsClimb();
    case Yearly => YearsClimb();
  }

  lemma DateInUnit(g: Granularity, d: Date)
    requires d.Valid()
    ensures InUnit(Starts(g), UnitOf(g, d), DayNumber(d))
  {
    match g
    case Daily =>
    case Monthly => InMonth(d);
    case Yearly => InYear(d);
  }

  lemma UnitBounds(g: Granularity, d: Date)
    requires d.Valid()
    ensures FirstDay(g, d) == Starts(g)(UnitOf(g, d)) && NextDay(g, d) == Starts(g)(UnitOf(g, d) + 1)
  {
    match g
    case Daily =>
    case Monthly =>
      MonthAt(d.year, d.month);
      NextMonth(d.year, d.month);
      if d.month == 12 { MonthsFillYear(d.year); }
    case Yearly =>
  }

  lemma UnitName(g: Granularity, d: Date)
    requires d.Valid()
    ensures Name(g, UnitDate(g, UnitOf(g, d))) == Name(g, d)
  {
    match g
    case Daily => DateIsUnique(d, DateOf(DayNumber(d)));
    case Monthly => MonthOf(d.year, d.month);
    case Yearly =>
  }

  // The partition created for a timestamp is that of its calendar unit.
  lemma CreateIsUnit(g: Granularity, b: Bounds, now: int, ts: int)
    ensures var p := PartitionAt(g, if b.Holds(ts) then ts else now);
      CreatePartition(g, b, now, ts) == if p.hi > b.max then None else Some(p)
  {
    UnitOfDate(g, DateOf((if b.Holds(ts) then ts else now) / DAY));
  }

  lemma UnitOfDate(g: Granularity, d: Date)
    requires d.Valid()
    ensures UnitPartition(g, UnitOf(g, d)) == PartitionKey(Name(g, d), FirstDay(g, d) * DAY, NextDay(g, d) * DAY)
  {
    UnitBounds(g, d);
    UnitName(g, d);
  }

  lemma DayInUnit(g: Granularity, n: int)
    ensures InUnit(Starts(g), UnitOf(g, DateOf(n)), n)
  {
    DateInUnit(g, DateOf(n));
  }

  lemma ContainsIsInUnit(g: Granularity, k: int, ts: int)
    ensures UnitPartition(g, k).Contains(ts) <==> InUnit(Starts(g), k, ts / DAY)
  {
  }

  // A unit's partition contains exactly the timestamps of the unit.
  lemma UnitContains(g: Granularity, k: int, ts: int)
    ensures UnitPartition(g, k).Contains(ts) <==> k == UnitAt(g, ts)
  {
    ContainsIsInUnit(g, k, ts);
    DayInUnit(g, ts / DAY);
    if InUnit(Starts(g), k, ts / DAY) {
      UnitsClimb(g);
      UnitIsUnique(Starts(g), k, UnitAt(g, ts), ts / DAY);
    }
  }

  function UnitDays(g: Granularity, d: Date): int
    requires d.Valid()
  {
    match g
    case Daily => 1
    case Monthly => MonthLength(d.year, d.month)
    case Yearly => YearLength(d.year)
  }

  lemma DaysOfUnit(g: Granularity, d: Date)
    requires d.Valid()
    ensures NextDay(g, d) - FirstDay(g, d) == UnitDays(g, d)
  {
    match g
    case Daily =>
    case Monthly => if d.month == 12 { MonthsFillYear(d.year); }
    case Yearly => NextYear(d.year);
  }

  lemma UnitSeconds(g: Granularity, d: Date)
    requires d.Valid()
    ensures var p := UnitPartition(g, UnitOf(g, d));
      p.lo == FirstDay(g, d) * DAY && p.hi == NextDay(g, d) * DAY
  {
    UnitBounds(g, d);
  }

  lemma WholeDays(lo: int, hi: int)
    ensures lo * 86400 % 86400 == 0 && hi * 86400 - lo * 86400 == 86400 * (hi - lo)
  {
  }

  // A day's partition starts at midnight and is a day long; a month's or a
  // year's is as many days long as the unit has.
  lemma UnitLength(g: Granularity, d: Date)
    requires d.Valid()
    ensures var p := UnitPartition(g, UnitOf(g, d));
      && p.lo % 86400 == 0 && p.hi - p.lo == 86400 * UnitDays(g, d)
      && (g == Daily ==> p.lo == 86400 * DayNumber(d))
  {
    UnitSeconds(g, d);
    DaysOfUnit(g, d);
    WholeDays(FirstDay(g, d), NextDay(g, d));
  }

  // ----- names

  lemma SplitNames(a: string, s: string, b: string, t: string)
    requires |s| == |t| && "p_" + a + s == "p_" + b + t
    ensures a == b && s == t
  {
    var x, y := "p_" + a + s, "p_" + b + t;
    assert x[2..|x| - |s|] == a && y[2..|y| - |t|] == b;
    assert x[|x| - |s|..] == s && y[|y| - |t|..] == t;
  }

  lemma DatesFromNames(g: Granularity, d: Date, e: Date)
    requires d.Valid() && e.Valid() && Name(g, d) == Name(g, e)
    ensures d.year == e.year
    ensures g != Yearly ==> d.month == e.month
    ensures g == Daily ==> d.day == e.day
  {
    var dm, dd, em, ed := Padded(d.month, 2), Padded(d.day, 2), Padded(e.month, 2), Padded(e.day, 2);
    TwoDigits(d.month);
    TwoDigits(d.day);
    TwoDigits(e.month);
    TwoDigits(e.day);
    var s, t := if g == Daily then "_" + dm + "_" + dd else if g == Monthly then "_" + dm else "",
                if g == Daily then "_" + em + "_" + ed else if g == Monthly then "_" + em else "";
    SplitNames(Padded(d.year, 4), s, Padded(e.year, 4), t);
    PaddedInjective(d.year, e.year, 4);
    if g == Daily {
      SplitParts(dm, dd);
      SplitParts(em, ed);
      PaddedInjective(d.month, e.month, 2);
      PaddedInjective(d.day, e.day, 2);
    } else if g == Monthly {
      assert s[1..] == dm && t[1..] == em;
      PaddedInjective(d.month, e.month, 2);
    }
  }

  lemma SplitParts(month: string, day: string)
    requires |month| == 2
    ensures var s := "_" + month + "_" + day;
      |s| == |day| + 4 && s[1..3] == month && s[4..] == day
  {
  }

  // Different units have different names, for every year.
  lemma NamesDiffer(g: Granularity, j: int, k: int)
    requires UnitPartition(g, j).name == UnitPartition(g, k).name
    ensures j == k
  {
    DatesFromNames(g, UnitDate(g, j), UnitDate(g, k));
  }

  // The text between two positions counted from its end.
  function Behind(s: string, from: nat, to: nat): string
    requires to <= from <= |s|
  {
    s[|s| - from..|s| - to]
  }

  lemma LastParts(head: string, part: string)
    requires |part| == 2
    ensures var s := head + ("_" + part);
      s[..|s| - 3] == head && Behind(s, 3, 2) == "_" && Behind(s, 2, 0) == part
  {
  }

  lemma LastTwoParts(head: string, month: string, day: string)
    requires |month| == |day| == 2
    ensures var s := head + ("_" + month + "_" + day);
      && s[..|s| - 6] == head && Behind(s, 6, 5) == "_" && Behind(s, 5, 3) == month
      && Behind(s, 3, 2) == "_" && Behind(s, 2, 0) == day
  {
  }

  // What a name says: a prefix and the year, at least four characters of it,
  // then the month and the day, two digits each and set off by underscores, as
  // far as the granularity goes.
  ghost predicate NameSays(g: Granularity, d: Date, s: string) {
    match g
    case Yearly => |s| >= 6 && s[..2] == "p_" && Reads(s[2..], d.year)
    case Monthly =>
      && |s| >= 9 && s[..2] == "p_" && Reads(s[2..|s| - 3], d.year)
      && Behind(s, 3, 2) == "_" && Reads(Behind(s, 2, 0), d.month)
    case Daily =>
      && |s| >= 12 && s[..2] == "p_" && Reads(s[2..|s| - 6], d.year)
      && Behind(s, 6, 5) == "_" && Reads(Behind(s, 5, 3), d.month) && Behind(s, 3, 2) == "_" && Reads(Behind(s, 2, 0), d.day)
  }

  lemma NameReads(g: Granularity, d: Date)
    requires d.Valid()
    ensures NameSays(g, d, Name(g, d))
  {
    var s, year, month, day := Name(g, d), Padded(d.year, 4), Padded(d.month, 2), Padded(d.day, 2);
    TwoDigits(d.month);
    TwoDigits(d.day);
    PaddedReads(d.year, 4);
    PaddedReads(d.month, 2);
    PaddedReads(d.day, 2);
    var head := "p_" + year;
    assert head[..2] == "p_" && head[2..] == year;
    match g
    case Yearly => assert s == head;
    case Monthly =>
      LastParts(head, month);
      assert s[..2] == s[..|s| - 3][..2] && s[2..|s| - 3] == s[..|s| - 3][2..];
    case Daily =>
      LastTwoParts(head, month, day);
      assert s[..2] == s[..|s| - 6][..2] && s[2..|s| - 6] == s[..|s| - 6][2..];
  }

  // ----- one cube's list

  ghost predicate Canonical(g: Granularity, p: PartitionKey) {
    exists k :: p == UnitPartition(g, k)
  }

  ghost predicate Ascending(list: seq<PartitionKey>) {
    forall i, j :: 0 <= i < j < |list| ==> list[i].lo < list[j].lo
  }

  // What every list is: calendar partitions in strictly ascending order.
  ghost predicate Tidy(g: Granularity, list: seq<PartitionKey>) {
    Ascending(list) && forall p :: p in list ==> Canonical(g, p)
  }

  predicate Disjoint(p: PartitionKey, q: PartitionKey) {
    p.hi <= q.lo || q.hi <= p.lo
  }

  lemma UnitsDisjoint(g: Granularity, j: int, k: int)
    requires j < k
    ensures UnitPartition(g, j).lo < UnitPartition(g, j).hi <= UnitPartition(g, k).lo
  {
    UnitsClimb(g);
    StartsApart(Starts(g), j, k);
  }

  lemma UnitPair(g: Granularity, j: int, k: int, p: PartitionKey, q: PartitionKey)
    requires p == UnitPartition(g, j) && q == UnitPartition(g, k)
    ensures p.lo < p.hi
    ensures p != q ==> p.name != q.name && p.lo != q.lo && Disjoint(p, q)
  {
    UnitsDisjoint(g, j, j + 1);
    UnitsDisjoint(g, k, k + 1);
    if p.name == q.name { NamesDiffer(g, j, k); }
    if j < k { UnitsDisjoint(g, j, k); }
    if k < j { UnitsDisjoint(g, k, j); }
  }

  lemma CanonicalPair(g: Granularity, p: PartitionKey, q: PartitionKey)
    requires Canonical(g, p) && Canonical(g, q)
    ensures p.lo < p.hi
    ensures p != q ==> p.name != q.name && p.lo != q.lo && Disjoint(p, q)
  {
    var j :| p == UnitPartition(g, j);
    UnitVersus(g, j, p, q);
  }

  lemma UnitVersus(g: Granularity, j: int, p: PartitionKey, q: PartitionKey)
    requires p == UnitPartition(g, j) && Canonical(g, q)
    ensures p.lo < p.hi
    ensures p != q ==> p.name != q.name && p.lo != q.lo && Disjoint(p, q)
  {
    var k :| q == UnitPartition(g, k);
    UnitPair(g, j, k, p, q);
  }

  // A created partition is a calendar partition, and contains the timestamp it
  // was created for exactly when the library can represent the timestamp.
  lemma CreateExact(g: Granularity, b: Bounds, now: int, ts: int)
    ensures var r := CreatePartition(g, b, now, ts);
      r.Some? ==> Canonical(g, r.value) && (b.Holds(ts) ==> r.value == PartitionAt(g, ts) && r.value.Contains(ts))
    ensures var r := CreatePartition(g, b, now, ts);
      r.Some? && r.value.lo >= b.min ==> (r.value.Contains(ts) <==> b.Holds(ts))
  {
    CreateIsUnit(g, b, now, ts);
    UnitContains(g, UnitAt(g, ts), ts);
  }

  // A tidy list has no name twice and no two overlapping partitions.
  lemma TidyIsPartition(g: Granularity, list: seq<PartitionKey>, i: nat, j: nat)
    requires Tidy(g, list) && i < j < |list|
    ensures list[i].name != list[j].name && list[i].hi <= list[j].lo && list[i].lo < list[i].hi
  {
    assert list[i] in list && list[j] in list;
    CanonicalPair(g, list[i], list[j]);
    CanonicalPair(g, list[j], list[i]);
  }

  function ByLo(): Cmp<PartitionKey> {
    (p: PartitionKey, q: PartitionKey) => if p.lo < q.lo then Less else if p.lo == q.lo then Equal else Greater
  }

  predicate HasName(list: seq<PartitionKey>, name: string) {
    exists i :: 0 <= i < |list| && list[i].name == name
  }

  // The locked section that adds a partition unless its name is present.
  function Added(list: seq<PartitionKey>, p: PartitionKey): seq<PartitionKey> {
    if HasName(list, p.name) then list else StableSort(list + [p], ByLo())
  }

  lemma {:induction false} InsertAscending(x: PartitionKey, s: seq<PartitionKey>)
    requires Ascending(s) && forall y :: y in s ==> y.lo != x.lo
    ensures var r := Insert(x, s, ByLo());
      Ascending(r) && forall y :: y in r <==> y == x || y in s
  {
    if s != [] && x.lo > s[0].lo {
      InsertAscending(x, s[1..]);
      var r := Insert(x, s[1..], ByLo());
      forall y | y in r ensures s[0].lo < y.lo {
        if y != x {
          var i :| 0 <= i < |s[1..]| && s[1..][i] == y;
          assert s[i + 1] == y;
        }
      }
    }
  }

  lemma {:induction false} SortAscending(s: seq<PartitionKey>)
    requires forall i, j :: 0 <= i < j < |s| ==> s[i].lo != s[j].lo
    ensures var r := StableSort(s, ByLo());
      Ascending(r) && forall y :: y in r <==> y in s
  {
    if s != [] {
      SortAscending(s[1..]);
      forall y | y in s[1..] ensures y.lo != s[0].lo {
        var i :| 0 <= i < |s[1..]| && s[1..][i] == y;
        assert s[i + 1] == y;
      }
      InsertAscending(s[0], StableSort(s[1..], ByLo()));
      assert forall y :: y in s <==> y == s[0] || y in s[1..];
    }
  }

  lemma SameNameSame(g: Granularity, list: seq<PartitionKey>, p: PartitionKey)
    requires (forall q :: q in list ==> Canonical(g, q)) && Canonical(g, p)
    ensures HasName(list, p.name) ==> p in list
    ensures !HasName(list, p.name) ==> forall i :: 0 <= i < |list| ==> list[i].lo != p.lo
  {
    forall i | 0 <= i < |list| ensures list[i] == p || (list[i].name != p.name && list[i].lo != p.lo) {
      assert list[i] in list;
      CanonicalPair(g, p, list[i]);
    }
  }

  lemma AddAscending(list: seq<PartitionKey>, p: PartitionKey)
    requires Ascending(list) && forall i :: 0 <= i < |list| ==> list[i].lo != p.lo
    ensures var r := StableSort(list + [p], ByLo());
      Ascending(r) && forall q :: q in r <==> q in list || q == p
  {
    SortAscending(list + [p]);
    assert forall q :: q in list + [p] <==> q in list || q == p;
  }

  lemma AddKeepsTidy(g: Granularity, list: seq<PartitionKey>, p: PartitionKey)
    requires Tidy(g, list) && Canonical(g, p)
    ensures Tidy(g, Added(list, p)) && p in Added(list, p)
    ensures forall q :: q in Added(list, p) <==> q in list || q == p
  {
    SameNameSame(g, list, p);
    if !HasName(list, p.name) { AddAscending(list, p); }
  }

  function Unnamed(name: string): PartitionKey -> bool {
    (p: PartitionKey) => p.name != name
  }

  lemma {:induction false} FilterAscending(list: seq<PartitionKey>, keep: PartitionKey -> bool)
    requires Ascending(list)
    ensures Ascending(Filter(list, keep))
  {
    if list != [] {
      var tail := list[1..];
      FilterAscending(tail, keep);
      var r := Filter(tail, keep);
      forall i | 0 <= i < |r| ensures list[0].lo < r[i].lo {
        FilterIn(tail, keep, r[i]);
        var j :| 0 <= j < |tail| && tail[j] == r[i];
        assert list[j + 1] == r[i];
      }
    }
  }

  lemma FilterTidy(g: Granularity, list: seq<PartitionKey>, keep: PartitionKey -> bool)
    requires Tidy(g, list)
    ensures Tidy(g, Filter(list, keep))
  {
    FilterAscending(list, keep);
    forall p | p in Filter(list, keep) ensures Canonical(g, p) {
      FilterIn(list, keep, p);
    }
  }

  lemma {:induction false} DropExact(list: seq<PartitionKey>, name: string)
    ensures var r := Filter(list, Unnamed(name));
      !HasName(r, name) && |r| <= |list| && (|r| < |list| <==> HasName(list, name))
  {
    if list != [] {
      DropExact(list[1..], name);
      var tail, r := list[1..], Filter(list[1..], Unnamed(name));
      if HasName(tail, name) {
        var i :| 0 <= i < |tail| && tail[i].name == name;
        assert list[i + 1].name == name;
      }
      assert list[0].name != name ==> forall i :: 1 <= i < |list| ==> list[i] == tail[i - 1];
      assert list[0].name != name ==> Filter(list, Unnamed(name)) == [list[0]] + r;
    }
  }

  // The first partition that contains the timestamp.
  function Find(list: seq<PartitionKey>, ts: int): Option<PartitionKey> {
    if list == [] then None
    else if list[0].Contains(ts) then Some(list[0])
    else Find(list[1..], ts)
  }

  lemma {:induction false} FindIn(list: seq<PartitionKey>, ts: int)
    ensures var r := Find(list, ts);
      if r.Some? then r.value in list && r.value.Contains(ts) else forall p :: p in list ==> !p.Contains(ts)
  {
    if list != [] {
      FindIn(list[1..], ts);
      assert forall p :: p in list <==> p == list[0] || p in list[1..];
    }
  }

  lemma CanonicalContains(g: Granularity, p: PartitionKey, ts: int)
    requires Canonical(g, p)
    ensures p.Contains(ts) <==> p == PartitionAt(g, ts)
  {
    var k :| p == UnitPartition(g, k);
    UnitContains(g, k, ts);
    UnitContains(g, UnitAt(g, ts), ts);
  }

  lemma FindExact(g: Granularity, list: seq<PartitionKey>, ts: int)
    requires Tidy(g, list)
    ensures var r := Find(list, ts);
      if r.Some? then r.value in list && r.value == PartitionAt(g, ts) && r.value.Contains(ts)
      else forall p :: p in list ==> !p.Contains(ts)
  {
    FindIn(list, ts);
    var r := Find(list, ts);
    if r.Some? { CanonicalContains(g, r.value, ts); }
  }

  // ----- range queries

  // A missing bound is no restriction.
  predicate Overlaps(p: PartitionKey, lo: Option<int>, hi: Option<int>) {
    (lo.None? || p.hi > lo.value) && (hi.None? || p.lo < hi.value)
  }

  predicate InRange(t: int, lo: Option<int>, hi: Option<int>) {
    (lo.None? || lo.value <= t) && (hi.None? || t < hi.value)
  }

  ghost predicate Meets(p: PartitionKey, lo: Option<int>, hi: Option<int>) {
    exists t :: p.Contains(t) && InRange(t, lo, hi)
  }

  // The test holds exactly for the partitions that meet the range, and, when
  // the range is empty, for a partition that spans it.
  lemma RangeExact(g: Granularity, p: PartitionKey, lo: Option<int>, hi: Option<int>)
    requires Canonical(g, p)
    ensures var spans := lo.Some? && hi.Some? && p.lo < hi.value <= lo.value < p.hi;
      Overlaps(p, lo, hi) <==> Meets(p, lo, hi) || spans
  {
    CanonicalPair(g, p, p);
    if Overlaps(p, lo, hi) {
      var t := if lo.Some? && lo.value > p.lo then lo.value else p.lo;
      if hi.None? || t < hi.value { assert p.Contains(t) && InRange(t, lo, hi); }
    }
  }

  function Overlapping(lo: Option<int>, hi: Option<int>): PartitionKey -> bool {
    (p: PartitionKey) => Overlaps(p, lo, hi)
  }

  // ----- the manager

  type Lists = map<string, seq<PartitionKey>>

  function ListOf(lists: Lists, cube: string): seq<PartitionKey> {
    if cube in lists then lists[cube] else []
  }

  ghost predicate AllTidy(g: Granularity, lists: Lists) {
    forall cube :: cube in lists ==> Tidy(g, lists[cube])
  }

  function AddedTo(lists: Lists, cube: string, p: PartitionKey): Lists {
    lists[cube := Added(ListOf(lists, cube), p)]
  }

  function DroppedFrom(lists: Lists, cube: string, name: string): Lists {
    if cube in lists then lists[cube := Filter(lists[cube], Unnamed(name))] else lists
  }

  lemma PutTidy(g: Granularity, lists: Lists, cube: string, list: seq<PartitionKey>)
    requires AllTidy(g, lists) && Tidy(g, list) && forall q :: q in ListOf(lists, cube) ==> q in list
    ensures AllTidy(g, lists[cube := list])
    ensures forall c, q :: q in ListOf(lists, c) ==> q in ListOf(lists[cube := list], c)
  {
  }

  lemma AddTidy(g: Granularity, lists: Lists, cube: string, p: PartitionKey)
    requires AllTidy(g, lists) && Canonical(g, p)
    ensures AllTidy(g, AddedTo(lists, cube, p)) && p in ListOf(AddedTo(lists, cube, p), cube)
  {
    AddKeepsTidy(g, ListOf(lists, cube), p);
    PutTidy(g, lists, cube, Added(ListOf(lists, cube), p));
  }

  class AutoPartitionManager {
    var partitions: Lists
    const granularity: Granularity
    const bounds: Bounds

    constructor (g: Granularity, b: Bounds)
      ensures granularity == g && bounds == b && partitions == map[]
    {
      granularity := g;
      bounds := b;
      partitions := map[];
    }

    ghost predicate Valid()
      reads this
    {
      AllTidy(granularity, partitions)
    }

    // The section under the write lock.
    method Add(cube: string, p: PartitionKey)
      requires Valid() && Canonical(granularity, p)
      modifies this
      ensures Valid() && partitions == AddedTo(old(partitions), cube, p)
      ensures p in ListOf(partitions, cube)
    {
      AddTidy(granularity, partitions, cube, p);
      partitions := partitions[cube := Added(ListOf(partitions, cube), p)];
    }

    // Without interference: a call that does not panic returns a partition
    // that is then listed, the calendar partition of a representable
    // timestamp, and changes nothing else.
    method GetOrCreate(cube: string, ts: int, now: int) returns (r: Option<PartitionKey>)
      requires Valid()
      modifies this
      ensures Valid()
      ensures r.None? ==> partitions == old(partitions) && CreatePartition(granularity, bounds, now, ts).None?
      ensures r.Some? ==> r.value in ListOf(partitions, cube)
      ensures r.Some? && bounds.Holds(ts) ==> r.value == PartitionAt(granularity, ts) && r.value.Contains(ts)
      ensures partitions == old(partitions) || (r.Some? && partitions == AddedTo(old(partitions), cube, r.value))
    {
      r := Find(ListOf(partitions, cube), ts);
      FindExact(granularity, ListOf(partitions, cube), ts);
      if r.None? {
        r := CreatePartition(granularity, bounds, now, ts);
        CreateExact(granularity, bounds, now, ts);
        if r.Some? { Add(cube, r.value); }
      }
    }

    method DropPartition(cube: string, name: string) returns (removed: bool)
      requires Valid()
      modifies this
      ensures Valid() && partitions == DroppedFrom(old(partitions), cube, name)
      ensures removed <==> HasName(ListOf(old(partitions), cube), name)
      ensures !HasName(ListOf(partitions, cube), name)
      ensures forall c, p :: p in ListOf(partitions, c) <==> p in ListOf(old(partitions), c) && !(c == cube && p.name == name)
    {
      if cube !in partitions { return false; }
      var before := partitions[cube];
      var after := Filter(before, Unnamed(name));
      forall p ensures p in after <==> p in before && p.name != name {
        FilterIn(before, Unnamed(name), p);
      }
      FilterTidy(granularity, before, Unnamed(name));
      DropExact(before, name);
      partitions := partitions[cube := after];
      removed := |after| < |before|;
    }

    // For a non-empty range, exactly the partitions that meet it, in order.
    method PartitionsInRange(cube: string, lo: Option<int>, hi: Option<int>) returns (r: seq<PartitionKey>)
      requires Valid()
      ensures r == Filter(ListOf(partitions, cube), Overlapping(lo, hi)) && Ascending(r)
      ensures (lo.None? || hi.None? || lo.value < hi.value) ==>
        forall p :: p in r <==> p in ListOf(partitions, cube) && Meets(p, lo, hi)
    {
      r := Filter(ListOf(partitions, cube), Overlapping(lo, hi));
      FilterTidy(granularity, ListOf(partitions, cube), Overlapping(lo, hi));
      forall p ensures p in r <==> p in ListOf(partitions, cube) && Overlaps(p, lo, hi) {
        FilterIn(ListOf(partitions, cube), Overlapping(lo, hi), p);
      }
      forall p | p in ListOf(partitions, cube) && (lo.None? || hi.None? || lo.value < hi.value)
        ensures Overlaps(p, lo, hi) <==> Meets(p, lo, hi)
      {
        RangeExact(granularity, p, lo, hi);
      }
    }
  }
}
