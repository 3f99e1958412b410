// The library's stable sort: what it returns, why that is unique, and what
// repeated passes add up to.
module Sorting {
  import opened Common

  type Cmp<!T> = (T, T) -> Ordering

  ghost predicate TotalPreorder<T(!new)>(cmp: Cmp<T>) {
    && (forall a, b :: cmp(b, a) == Flip(cmp(a, b)))
    && (forall a, b, c :: cmp(a, b) != Greater && cmp(b, c) != Greater ==> cmp(a, c) != Greater)
  }

  function Insert<T>(x: T, s: seq<T>, cmp: Cmp<T>): seq<T> {
    if s == [] then [x]
    else if cmp(x, s[0]) != Greater then [x] + s
    else [s[0]] + Insert(x, s[1..], cmp)
  }

  // The library's stable sort. `SortIsUnique` shows that any stable sort
  // returns the same sequence.
  function StableSort<T>(s: seq<T>, cmp: Cmp<T>): seq<T> {
    if s == [] then [] else Insert(s[0], StableSort(s[1..], cmp), cmp)
  }

  ghost predicate Sorted<T>(s: seq<T>, cmp: Cmp<T>) {
    forall i, j :: 0 <= i < j < |s| ==> cmp(s[i], s[j]) != Greater
  }

  function Same<T>(cmp: Cmp<T>, g: T): T -> bool {
    x => cmp(g, x) == Equal
  }

  // Elements that compare equal keep their relative order; as every element is
  // in its own class, this also makes `b` a permutation of `a`.
  ghost predicate StableImage<T(!new)>(a: seq<T>, b: seq<T>, cmp: Cmp<T>) {
    forall g :: Filter(a, Same(cmp, g)) == Filter(b, Same(cmp, g))
  }

  lemma {:induction false} InsertElements<T>(x: T, s: seq<T>, cmp: Cmp<T>)
    ensures multiset(Insert(x, s, cmp)) == multiset{x} + multiset(s)
  {
    if s == [] {
    } else if cmp(x, s[0]) != Greater {
    } else {
      InsertElements(x, s[1..], cmp);
      assert s == [s[0]] + s[1..];
    }
  }

  lemma {:induction false} SortElements<T>(s: seq<T>, cmp: Cmp<T>)
    ensures multiset(StableSort(s, cmp)) == multiset(s)
  {
    if s != [] {
      SortElements(s[1..], cmp);
      InsertElements(s[0], StableSort(s[1..], cmp), cmp);
      assert s == [s[0]] + s[1..];
    }
  }

  lemma ElementsMatch<T>(a: seq<T>, b: seq<T>, x: T)
    requires multiset(a) == multiset(b)
    ensures x in a <==> x in b
  {
    assert x in a <==> x in multiset(a);
    assert x in b <==> x in multiset(b);
  }

  lemma SortedCons<T>(x: T, s: seq<T>, cmp: Cmp<T>)
    requires Sorted(s, cmp) && forall y :: y in s ==> cmp(x, y) != Greater
    ensures Sorted([x] + s, cmp)
  {
  }

  // ----- one pass

  function Then<T>(first: Cmp<T>, rest: Cmp<T>): Cmp<T> {
    (a, b) => if first(a, b) != Equal then first(a, b) else rest(a, b)
  }

  lemma ThenPreorder<T(!new)>(first: Cmp<T>, rest: Cmp<T>)
    requires TotalPreorder(first) && TotalPreorder(rest)
    ensures TotalPreorder(Then(first, rest))
  {
    var both := Then(first, rest);
    forall a, b, c | both(a, b) != Greater && both(b, c) != Greater ensures both(a, c) != Greater {
      assert first(a, b) != Greater && first(b, c) != Greater;
      assert first(b, a) == Flip(first(a, b)) && first(c, b) == Flip(first(b, c)) && first(c, a) == Flip(first(a, c));
      if first(a, c) == Equal {
        assert first(c, a) != Greater;
        assert first(b, a) != Greater;
        assert first(c, b) != Greater;
      }
    }
  }

  lemma {:induction false} InsertSorted<T(!new)>(x: T, s: seq<T>, first: Cmp<T>, rest: Cmp<T>)
    requires TotalPreorder(first)
    requires Sorted(s, Then(first, rest))
    requires forall y :: y in s ==> rest(x, y) != Greater
    ensures Sorted(Insert(x, s, first), Then(first, rest))
  {
    var both := Then(first, rest);
    if s != [] {
      if first(x, s[0]) != Greater {
        forall y | y in s ensures both(x, y) != Greater {
          var i :| 0 <= i < |s| && s[i] == y;
          assert i > 0 ==> both(s[0], s[i]) != Greater;
          assert first(y, y) == Flip(first(y, y));
          assert first(s[0], y) != Greater;
          assert first(x, y) != Greater;
        }
        SortedCons(x, s, both);
      } else {
        var tail := s[1..];
        InsertSorted(x, tail, first, rest);
        InsertElements(x, tail, first);
        forall y | y in Insert(x, tail, first) ensures both(s[0], y) != Greater {
          ElementsMatch(Insert(x, tail, first), [x] + tail, y);
          if y == x {
            assert first(s[0], x) == Flip(first(x, s[0]));
          } else {
            var i :| 0 <= i < |tail| && tail[i] == y;
            assert s[i + 1] == y;
          }
        }
        SortedCons(s[0], Insert(x, tail, first), both);
      }
    }
  }

  // A stable pass by a new major key keeps the order already established by
  // the minor keys.
  lemma {:induction false} PassSorted<T(!new)>(s: seq<T>, first: Cmp<T>, rest: Cmp<T>)
    requires TotalPreorder(first) && Sorted(s, rest)
    ensures Sorted(StableSort(s, first), Then(first, rest))
  {
    if s != [] {
      var tail := s[1..];
      PassSorted(tail, first, rest);
      SortElements(tail, first);
      forall y | y in StableSort(tail, first) ensures rest(s[0], y) != Greater {
        ElementsMatch(StableSort(tail, first), tail, y);
        var i :| 0 <= i < |tail| && tail[i] == y;
        assert s[i + 1] == y;
      }
      InsertSorted(s[0], StableSort(tail, first), first, rest);
    }
  }

  lemma SameClass<T(!new)>(x: T, y: T, cmp: Cmp<T>, g: T)
    requires TotalPreorder(cmp)
    ensures Same(cmp, g)(x) && Same(cmp, g)(y) ==> cmp(x, y) != Greater
  {
    assert cmp(x, g) == Flip(cmp(g, x));
  }

  lemma FilterCons<T>(x: T, s: seq<T>, p: T -> bool)
    ensures Filter([x] + s, p) == if p(x) then [x] + Filter(s, p) else Filter(s, p)
  {
    assert ([x] + s)[1..] == s;
    assert [] + Filter(s, p) == Filter(s, p);
  }

  lemma {:induction false} InsertStable<T(!new)>(x: T, s: seq<T>, cmp: Cmp<T>, g: T)
    requires TotalPreorder(cmp)
    ensures Filter(Insert(x, s, cmp), Same(cmp, g)) == Filter([x] + s, Same(cmp, g))
  {
    if s != [] && cmp(x, s[0]) == Greater {
      var p, tail := Same(cmp, g), s[1..];
      InsertStable(x, tail, cmp, g);
      SameClass(x, s[0], cmp, g);
      FilterCons(s[0], Insert(x, tail, cmp), p);
      FilterCons(x, tail, p);
      FilterCons(x, s, p);
      FilterCons(s[0], tail, p);
      assert s == [s[0]] + tail;
      assert !p(x) || !p(s[0]);
    }
  }

  lemma {:induction false} SortStable<T(!new)>(s: seq<T>, cmp: Cmp<T>, g: T)
    requires TotalPreorder(cmp)
    ensures Filter(StableSort(s, cmp), Same(cmp, g)) == Filter(s, Same(cmp, g))
  {
    if s != [] {
      SortStable(s[1..], cmp, g);
      InsertStable(s[0], StableSort(s[1..], cmp), cmp, g);
      FilterAppend([s[0]], StableSort(s[1..], cmp), Same(cmp, g));
      FilterAppend([s[0]], s[1..], Same(cmp, g));
      assert s == [s[0]] + s[1..];
    }
  }

  // ----- a stable sort is determined by its comparison

  lemma FilterHead<T(!new)>(a: seq<T>, cmp: Cmp<T>)
    requires a != [] && TotalPreorder(cmp)
    ensures Filter(a, Same(cmp, a[0])) != [] && Filter(a, Same(cmp, a[0]))[0] == a[0]
  {
    assert cmp(a[0], a[0]) == Flip(cmp(a[0], a[0]));
  }

  lemma HeadMinimal<T(!new)>(a: seq<T>, b: seq<T>, cmp: Cmp<T>)
    requires a != [] && b != [] && TotalPreorder(cmp) && Sorted(b, cmp) && StableImage(a, b, cmp)
    ensures cmp(b[0], a[0]) != Greater
  {
    FilterHead(a, cmp);
    var x := a[0];
    FilterIn(a, Same(cmp, x), x);
    FilterIn(b, Same(cmp, x), x);
    var i :| 0 <= i < |b| && b[i] == x;
    assert cmp(x, x) == Flip(cmp(x, x));
  }

  lemma HeadsAgree<T(!new)>(a: seq<T>, b: seq<T>, cmp: Cmp<T>)
    requires TotalPreorder(cmp) && Sorted(a, cmp) && Sorted(b, cmp) && StableImage(a, b, cmp) && a != [] && b != []
    ensures a[0] == b[0]
  {
    HeadMinimal(a, b, cmp);
    HeadMinimal(b, a, cmp);
    assert cmp(a[0], b[0]) == Flip(cmp(b[0], a[0]));
    FilterHead(a, cmp);
    assert Same(cmp, a[0])(b[0]);
    assert Filter(b, Same(cmp, a[0]))[0] == b[0];
  }

  lemma FilterTails<T>(a: seq<T>, b: seq<T>, p: T -> bool)
    requires a != [] && b != [] && a[0] == b[0] && Filter(a, p) == Filter(b, p)
    ensures Filter(a[1..], p) == Filter(b[1..], p)
  {
    if p(a[0]) {
      assert Filter(a[1..], p) == Filter(a, p)[1..];
      assert Filter(b[1..], p) == Filter(b, p)[1..];
    } else {
      assert Filter(a, p) == Filter(a[1..], p) && Filter(b, p) == Filter(b[1..], p);
    }
  }

  lemma TailImage<T(!new)>(a: seq<T>, b: seq<T>, cmp: Cmp<T>)
    requires a != [] && b != [] && a[0] == b[0] && StableImage(a, b, cmp)
    ensures StableImage(a[1..], b[1..], cmp)
  {
    forall g ensures Filter(a[1..], Same(cmp, g)) == Filter(b[1..], Same(cmp, g)) {
      assert Filter(a, Same(cmp, g)) == Filter(b, Same(cmp, g));
      FilterTails(a, b, Same(cmp, g));
    }
  }

  lemma {:induction false} SortIsUnique<T(!new)>(a: seq<T>, b: seq<T>, cmp: Cmp<T>)
    requires TotalPreorder(cmp) && Sorted(a, cmp) && Sorted(b, cmp) && StableImage(a, b, cmp)
    ensures a == b
  {
    if a == [] {
      if b != [] { FilterHead(b, cmp); }
    } else if b == [] {
      FilterHead(a, cmp);
    } else {
      HeadsAgree(a, b, cmp);
      TailImage(a, b, cmp);
      SortIsUnique(a[1..], b[1..], cmp);
      assert a == [a[0]] + a[1..] && b == [b[0]] + b[1..];
    }
  }

  // ----- all passes

  function Lex<T>(cmps: seq<Cmp<T>>): Cmp<T> {
    if cmps == [] then (a, b) => Equal else Then(cmps[0], Lex(cmps[1..]))
  }

  function Passes<T>(s: seq<T>, cmps: seq<Cmp<T>>): seq<T> {
    if cmps == [] then s else StableSort(Passes(s, cmps[1..]), cmps[0])
  }

  ghost predicate AllPreorders<T(!new)>(cmps: seq<Cmp<T>>) {
    forall i :: 0 <= i < |cmps| ==> TotalPreorder(cmps[i])
  }

  lemma {:induction false} FilterNarrow<T>(s: seq<T>, p: T -> bool, q: T -> bool)
    requires forall x :: x in s && q(x) ==> p(x)
    ensures Filter(Filter(s, p), q) == Filter(s, q)
  {
    if s != [] {
      FilterNarrow(s[1..], p, q);
      FilterAppend(if p(s[0]) then [s[0]] else [], Filter(s[1..], p), q);
      assert s[0] in s;
    }
  }

  lemma NarrowImage<T(!new)>(a: seq<T>, b: seq<T>, wide: Cmp<T>, narrow: Cmp<T>)
    requires StableImage(a, b, wide)
    requires forall x, y :: narrow(x, y) == Equal ==> wide(x, y) == Equal
    ensures StableImage(a, b, narrow)
  {
    forall g ensures Filter(a, Same(narrow, g)) == Filter(b, Same(narrow, g)) {
      FilterNarrow(a, Same(wide, g), Same(narrow, g));
      FilterNarrow(b, Same(wide, g), Same(narrow, g));
      assert Filter(a, Same(wide, g)) == Filter(b, Same(wide, g));
    }
  }

  lemma {:induction false} LexPreorder<T(!new)>(cmps: seq<Cmp<T>>)
    requires AllPreorders(cmps)
    ensures TotalPreorder(Lex(cmps))
  {
    if cmps != [] {
      LexPreorder(cmps[1..]);
      ThenPreorder(cmps[0], Lex(cmps[1..]));
    }
  }

  lemma {:induction false} PassesSorted<T(!new)>(s: seq<T>, cmps: seq<Cmp<T>>)
    requires AllPreorders(cmps)
    ensures Sorted(Passes(s, cmps), Lex(cmps))
  {
    if cmps != [] {
      PassesSorted(s, cmps[1..]);
      PassSorted(Passes(s, cmps[1..]), cmps[0], Lex(cmps[1..]));
    }
  }

  lemma {:induction false} PassesStable<T(!new)>(s: seq<T>, cmps: seq<Cmp<T>>)
    requires AllPreorders(cmps)
    ensures StableImage(s, Passes(s, cmps), Lex(cmps))
  {
    if cmps != [] {
      var inner := Passes(s, cmps[1..]);
      PassesStable(s, cmps[1..]);
      NarrowImage(s, inner, Lex(cmps[1..]), Lex(cmps));
      forall g ensures Filter(inner, Same(cmps[0], g)) == Filter(StableSort(inner, cmps[0]), Same(cmps[0], g)) {
        SortStable(inner, cmps[0], g);
      }
      NarrowImage(inner, StableSort(inner, cmps[0]), cmps[0], Lex(cmps));
      forall g ensures Filter(s, Same(Lex(cmps), g)) == Filter(Passes(s, cmps), Same(Lex(cmps), g)) {
        assert Filter(s, Same(Lex(cmps), g)) == Filter(inner, Same(Lex(cmps), g));
      }
    }
  }

  lemma PassSortedAlone<T(!new)>(s: seq<T>, cmp: Cmp<T>)
    requires TotalPreorder(cmp)
    ensures Sorted(StableSort(s, cmp), cmp)
  {
    var any: Cmp<T> := (a, b) => Equal;
    PassSorted(s, cmp, any);
    forall i, j | 0 <= i < j < |StableSort(s, cmp)| ensures cmp(StableSort(s, cmp)[i], StableSort(s, cmp)[j]) != Greater {
      assert Then(cmp, any)(StableSort(s, cmp)[i], StableSort(s, cmp)[j]) != Greater;
    }
  }

  // Sorting stably by each key, last key first, is one stable sort by the
  // lexicographic order on all keys, for any number of keys.
  lemma PassesAreLexicographic<T(!new)>(s: seq<T>, cmps: seq<Cmp<T>>)
    requires AllPreorders(cmps)
    ensures Passes(s, cmps) == StableSort(s, Lex(cmps))
    ensures Sorted(Passes(s, cmps), Lex(cmps)) && StableImage(s, Passes(s, cmps), Lex(cmps))
  {
    var lex := Lex(cmps);
    LexPreorder(cmps);
    PassesSorted(s, cmps);
    PassesStable(s, cmps);
    PassSortedAlone(s, lex);
    forall g ensures Filter(Passes(s, cmps), Same(lex, g)) == Filter(StableSort(s, lex), Same(lex, g)) {
      SortStable(s, lex, g);
      assert Filter(s, Same(lex, g)) == Filter(Passes(s, cmps), Same(lex, g));
    }
    SortIsUnique(Passes(s, cmps), StableSort(s, lex), lex);
  }

  lemma {:induction false} SortAllEqual<T>(s: seq<T>, cmp: Cmp<T>)
    requires forall i, j :: 0 <= i < |s| && 0 <= j < |s| ==> cmp(s[i], s[j]) == Equal
    ensures StableSort(s, cmp) == s
  {
    if s != [] {
      SortAllEqual(s[1..], cmp);
      if |s| > 1 { assert cmp(s[0], s[1]) == Equal; }
    }
  }
}
