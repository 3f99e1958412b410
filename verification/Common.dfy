// Helpers shared by every module: an option type, three-way comparison
// results, and the sequence operations the model is phrased in.
module Common {

  datatype Option<+T> = None | Some(value: T)

  datatype Ordering = Less | Equal | Greater

  function Flip(o: Ordering): Ordering {
    match o
    case Less => Greater
    case Equal => Equal
    case Greater => Less
  }

  // The elements of `s` that satisfy `keep`, in order.
  function Filter<T>(s: seq<T>, keep: T -> bool): seq<T> {
    if s == [] then []
    else (if keep(s[0]) then [s[0]] else []) + Filter(s[1..], keep)
  }

  lemma {:induction false} FilterAppend<T>(s: seq<T>, t: seq<T>, keep: T -> bool)
    ensures Filter(s + t, keep) == Filter(s, keep) + Filter(t, keep)
  {
    if s == [] {
      assert s + t == t;
    } else {
      var head := if keep(s[0]) then [s[0]] else [];
      calc {
        Filter(s + t, keep);
        { assert (s + t)[0] == s[0] && (s + t)[1..] == s[1..] + t; }
        head + Filter(s[1..] + t, keep);
        { FilterAppend(s[1..], t, keep); }
        head + (Filter(s[1..], keep) + Filter(t, keep));
        Filter(s, keep) + Filter(t, keep);
      }
    }
  }

  lemma {:induction false} FilterIn<T>(s: seq<T>, keep: T -> bool, x: T)
    ensures x in Filter(s, keep) <==> x in s && keep(x)
  {
    if s != [] {
      FilterIn(s[1..], keep, x);
      assert x in s <==> x == s[0] || x in s[1..];
    }
  }

  lemma {:induction false} FilterNone<T>(s: seq<T>, keep: T -> bool)
    requires forall x :: x in s ==> !keep(x)
    ensures Filter(s, keep) == []
  {
    if s != [] {
      assert s[0] in s;
      assert forall x :: x in s[1..] ==> x in s;
      FilterNone(s[1..], keep);
    }
  }

  lemma {:induction false} FilterAll<T>(s: seq<T>, keep: T -> bool)
    requires forall x :: x in s ==> keep(x)
    ensures Filter(s, keep) == s
  {
    if s != [] {
      assert s[0] in s;
      assert forall x :: x in s[1..] ==> x in s;
      FilterAll(s[1..], keep);
    }
  }

  // Concatenates `f` of every element.
  function FlatMap<A, B>(s: seq<A>, f: A -> seq<B>): seq<B> {
    if s == [] then [] else f(s[0]) + FlatMap(s[1..], f)
  }

  lemma {:induction false} FlatMapAppend<A, B>(s: seq<A>, t: seq<A>, f: A -> seq<B>)
    ensures FlatMap(s + t, f) == FlatMap(s, f) + FlatMap(t, f)
  {
    if s == [] {
      assert s + t == t;
    } else {
      calc {
        FlatMap(s + t, f);
        { assert (s + t)[0] == s[0] && (s + t)[1..] == s[1..] + t; }
        f(s[0]) + FlatMap(s[1..] + t, f);
        { FlatMapAppend(s[1..], t, f); }
        f(s[0]) + (FlatMap(s[1..], f) + FlatMap(t, f));
        FlatMap(s, f) + FlatMap(t, f);
      }
    }
  }

  lemma FlatMapSnoc<A, B>(s: seq<A>, n: nat, f: A -> seq<B>)
    requires n < |s|
    ensures FlatMap(s[..n + 1], f) == FlatMap(s[..n], f) + f(s[n])
  {
    assert s[..n + 1] == s[..n] + [s[n]];
    FlatMapAppend(s[..n], [s[n]], f);
    assert FlatMap([s[n]], f) == f(s[n]) + [];
  }

  lemma FilterSnoc<T>(s: seq<T>, n: nat, keep: T -> bool)
    requires n < |s|
    ensures Filter(s[..n + 1], keep) == Filter(s[..n], keep) + (if keep(s[n]) then [s[n]] else [])
  {
    assert s[..n + 1] == s[..n] + [s[n]];
    FilterAppend(s[..n], [s[n]], keep);
  }

  function Map<A, B>(s: seq<A>, f: A -> B): (t: seq<B>)
    ensures |t| == |s| && forall i :: 0 <= i < |s| ==> t[i] == f(s[i])
  {
    seq(|s|, i requires 0 <= i < |s| => f(s[i]))
  }

  lemma {:induction false} FilterMap<A, B>(s: seq<A>, f: A -> B, keep: A -> bool, keepImage: B -> bool)
    requires forall i :: 0 <= i < |s| ==> keepImage(f(s[i])) == keep(s[i])
    ensures Map(Filter(s, keep), f) == Filter(Map(s, f), keepImage)
  {
    if s != [] {
      FilterMap(s[1..], f, keep, keepImage);
      var t := Filter(s[1..], keep);
      assert Map(s, f)[1..] == Map(s[1..], f);
      if keep(s[0]) {
        assert Map([s[0]] + t, f) == [f(s[0])] + Map(t, f);
      } else {
        assert [] + t == t && [] + Filter(Map(s[1..], f), keepImage) == Filter(Map(s[1..], f), keepImage);
      }
    }
  }

  function Dropped<T>(s: seq<T>, j: nat): seq<T>
    requires j < |s|
  {
    s[..j] + s[j + 1..]
  }

  lemma DroppedElements<T>(s: seq<T>, j: nat)
    requires j < |s|
    ensures multiset(s) == multiset{s[j]} + multiset(Dropped(s, j))
  {
    assert s == s[..j] + [s[j]] + s[j + 1..];
  }

  // The head of one sequence is somewhere in any permutation of it.
  lemma PermutedHead<T>(a: seq<T>, b: seq<T>) returns (j: nat)
    requires multiset(a) == multiset(b) && a != []
    ensures j < |b| && b[j] == a[0] && multiset(a[1..]) == multiset(Dropped(b, j))
  {
    assert a[0] in multiset(b);
    j :| 0 <= j < |b| && b[j] == a[0];
    DroppedElements(b, j);
    DroppedElements(a, 0);
    assert Dropped(a, 0) == a[1..];
    assert multiset(a[1..]) == multiset(a) - multiset{a[0]};
  }

  lemma PermutedEmpty<T>(b: seq<T>)
    requires multiset(b) == multiset([])
    ensures b == []
  {
    assert |multiset(b)| == |b|;
  }

  lemma TakeOneMore<T>(a: seq<T>, b: seq<T>, n: nat)
    requires n < |b|
    ensures a + b[..n + 1] == (a + b[..n]) + [b[n]]
  {
    assert b[..n + 1] == b[..n] + [b[n]];
  }

  lemma Regroup<T>(a: seq<T>, b: seq<T>, c: seq<T>)
    ensures a + (b + c) == (a + b) + c
  {
  }

  lemma MoveHead<T>(a: seq<T>, b: seq<T>)
    requires b != []
    ensures a + [b[0]] + b[1..] == a + b
  {
  }
}
