// ORDER BY by repeated stable sorting, last key first.
module OrderBy {
  import opened Common
  import opened Json
  import opened Sorting
  import opened Sql
  import opened ValueOrder

  // ----- the executor's ORDER BY

  type Record = seq<Value>

  // An ORDER BY term: an output position counted from 1, or a column header.
  datatype OrderTerm = Position(p: nat, ascP: bool) | Header(name: string, ascH: bool) {
    predicate Ascending() {
      match this
      case Position(_, asc) => asc
      case Header(_, asc) => asc
    }
  }

  function IndexOf(columns: seq<string>, name: string): Option<nat> {
    if columns == [] then None
    else if Lower(columns[0]) == Lower(name) then Some(0)
    else
      var i := IndexOf(columns[1..], name);
      if i.Some? then Some(i.value + 1) else None
  }

  function Resolve(columns: seq<string>, t: OrderTerm): Option<nat> {
    match t
    case Position(p, _) => if p > 0 then Some(p - 1) else None
    case Header(n, _) => IndexOf(columns, n)
  }

  function Cell(row: Record, i: nat): Value {
    if i < |row| then row[i] else Null
  }

  // A term that names no column leaves the order alone.
  function TermCmp(h: Host, columns: seq<string>, t: OrderTerm): Cmp<Record> {
    (a: Record, b: Record) =>
      var idx := Resolve(columns, t);
      if idx.None? then Equal
      else
        var o := CmpJson(h, Cell(a, idx.value), Cell(b, idx.value));
        if t.Ascending() then o else Flip(o)
  }

  function TermCmps(h: Host, columns: seq<string>, terms: seq<OrderTerm>): (cmps: seq<Cmp<Record>>)
    ensures |cmps| == |terms| && forall i :: 0 <= i < |terms| ==> cmps[i] == TermCmp(h, columns, terms[i])
  {
    seq(|terms|, i requires 0 <= i < |terms| => TermCmp(h, columns, terms[i]))
  }

  lemma TermPreorder(h: Host, columns: seq<string>, t: OrderTerm)
    requires h.Lawful()
    ensures TotalPreorder(TermCmp(h, columns, t))
  {
    var cmp := TermCmp(h, columns, t);
    var idx := Resolve(columns, t);
    if idx.Some? {
      forall a, b ensures cmp(b, a) == Flip(cmp(a, b)) {
        CmpJsonFlip(h, Cell(a, idx.value), Cell(b, idx.value));
      }
      forall a, b, c | cmp(a, b) != Greater && cmp(b, c) != Greater ensures cmp(a, c) != Greater {
        var x, y, z := Cell(a, idx.value), Cell(b, idx.value), Cell(c, idx.value);
        CmpJsonFlip(h, x, y);
        CmpJsonFlip(h, y, z);
        CmpJsonFlip(h, x, z);
        if t.Ascending() { CmpJsonTransitive(h, x, y, z); } else { CmpJsonTransitive(h, z, y, x); }
      }
    }
  }

  // ----- what the order means, in terms of the rows' cells

  // The two names differ in the case of ASCII letters at most.
  predicate SameName(a: string, b: string) {
    |a| == |b| && forall i :: 0 <= i < |a| ==>
      || a[i] == b[i]
      || ('a' <= a[i] <= 'z' && b[i] as int == a[i] as int - 32)
      || ('a' <= b[i] <= 'z' && a[i] as int == b[i] as int - 32)
  }

  // The term is about column `c`: the p-th one, or the first with that header.
  predicate About(columns: seq<string>, t: OrderTerm, c: nat) {
    match t
    case Position(p, _) => p == c + 1
    case Header(name, _) =>
      c < |columns| && SameName(columns[c], name) && forall i :: 0 <= i < c ==> !SameName(columns[i], name)
  }

  // Row `a` comes before row `b` by this term.
  ghost predicate Before(h: Host, columns: seq<string>, t: OrderTerm, a: Record, b: Record) {
    exists c :: About(columns, t, c) && match t
      case Position(_, asc) => if asc then Below(h, Cell(a, c), Cell(b, c)) else Below(h, Cell(b, c), Cell(a, c))
      case Header(_, asc) => if asc then Below(h, Cell(a, c), Cell(b, c)) else Below(h, Cell(b, c), Cell(a, c))
  }

  ghost predicate Ties(h: Host, columns: seq<string>, t: OrderTerm, a: Record, b: Record) {
    !Before(h, columns, t, a, b) && !Before(h, columns, t, b, a)
  }

  ghost predicate TieAll(h: Host, columns: seq<string>, terms: seq<OrderTerm>, a: Record, b: Record) {
    forall k :: 0 <= k < |terms| ==> Ties(h, columns, terms[k], a, b)
  }

  // The rows tie on all terms, or come in this order by the first term on
  // which they do not.
  ghost predicate InOrder(h: Host, columns: seq<string>, terms: seq<OrderTerm>, a: Record, b: Record) {
    || TieAll(h, columns, terms, a, b)
    || exists k :: 0 <= k < |terms| && Before(h, columns, terms[k], a, b) && TieAll(h, columns, terms[..k], a, b)
  }

  lemma LowerIsSame(a: string, b: string)
    ensures Lower(a) == Lower(b) <==> SameName(a, b)
  {
    if SameName(a, b) {
      assert Lower(a) == Lower(b);
    } else if |a| == |b| {
      var i :| 0 <= i < |a| && a[i] != b[i]
        && !('a' <= a[i] <= 'z' && b[i] as int == a[i] as int - 32)
        && !('a' <= b[i] <= 'z' && a[i] as int == b[i] as int - 32);
      assert Lower(a)[i] != Lower(b)[i];
    }
  }

  lemma {:induction false} IndexOfExact(columns: seq<string>, name: string, c: nat)
    ensures IndexOf(columns, name) == Some(c) <==> About(columns, Header(name, true), c)
  {
    if columns != [] {
      LowerIsSame(columns[0], name);
      if c > 0 {
        IndexOfExact(columns[1..], name, c - 1);
        assert forall i :: 0 < i < |columns| ==> columns[i] == columns[1..][i - 1];
      }
    }
  }

  lemma ResolveExact(columns: seq<string>, t: OrderTerm, c: nat)
    ensures Resolve(columns, t) == Some(c) <==> About(columns, t, c)
  {
    if t.Header? { IndexOfExact(columns, t.name, c); }
  }

  lemma TermCmpExact(h: Host, columns: seq<string>, t: OrderTerm, a: Record, b: Record)
    requires h.Lawful()
    ensures TermCmp(h, columns, t)(a, b) == Less <==> Before(h, columns, t, a, b)
    ensures TermCmp(h, columns, t)(a, b) == Greater <==> Before(h, columns, t, b, a)
  {
    var idx := Resolve(columns, t);
    forall c: nat ensures idx == Some(c) <==> About(columns, t, c) {
      ResolveExact(columns, t, c);
    }
    if idx.Some? { CmpJsonExact(h, Cell(a, idx.value), Cell(b, idx.value)); }
  }

  // The lexicographic comparison is the order above.
  lemma {:induction false} LexExact(h: Host, columns: seq<string>, terms: seq<OrderTerm>, a: Record, b: Record)
    requires h.Lawful()
    ensures var o := Lex(TermCmps(h, columns, terms))(a, b);
      && (o != Greater <==> InOrder(h, columns, terms, a, b))
      && (o == Equal <==> TieAll(h, columns, terms, a, b))
  {
    if terms != [] {
      var rest := terms[1..];
      TermCmpExact(h, columns, terms[0], a, b);
      LexExact(h, columns, rest, a, b);
      assert TermCmps(h, columns, terms)[1..] == TermCmps(h, columns, rest);
      InOrderTail(h, columns, terms, a, b);
    }
  }

  lemma InOrderTail(h: Host, columns: seq<string>, terms: seq<OrderTerm>, a: Record, b: Record)
    requires terms != []
    ensures TieAll(h, columns, terms, a, b) <==> Ties(h, columns, terms[0], a, b) && TieAll(h, columns, terms[1..], a, b)
    ensures InOrder(h, columns, terms, a, b) <==>
      Before(h, columns, terms[0], a, b) || (Ties(h, columns, terms[0], a, b) && InOrder(h, columns, terms[1..], a, b))
  {
    var rest := terms[1..];
    assert TieAll(h, columns, terms, a, b) <==> Ties(h, columns, terms[0], a, b) && TieAll(h, columns, rest, a, b) by {
      TieAllCons(h, columns, terms[0], rest, a, b);
      assert [terms[0]] + rest == terms;
    }
    if Before(h, columns, terms[0], a, b) {
      assert terms[..0] == [];
    } else if Ties(h, columns, terms[0], a, b) && !TieAll(h, columns, rest, a, b) {
      forall k | 0 <= k < |rest| ensures TieAll(h, columns, terms[..k + 1], a, b) <==> TieAll(h, columns, rest[..k], a, b) {
        TieAllCons(h, columns, terms[0], rest[..k], a, b);
        assert [terms[0]] + rest[..k] == terms[..k + 1];
      }
      assert forall k :: 0 <= k < |rest| ==> terms[k + 1] == rest[k];
      if k :| 0 <= k < |terms| && Before(h, columns, terms[k], a, b) && TieAll(h, columns, terms[..k], a, b) {
        assert Before(h, columns, rest[k - 1], a, b);
      }
      if k :| 0 <= k < |rest| && Before(h, columns, rest[k], a, b) && TieAll(h, columns, rest[..k], a, b) {
        assert Before(h, columns, terms[k + 1], a, b);
      }
    }
  }

  lemma TieAllCons(h: Host, columns: seq<string>, t: OrderTerm, terms: seq<OrderTerm>, a: Record, b: Record)
    ensures TieAll(h, columns, [t] + terms, a, b) <==> Ties(h, columns, t, a, b) && TieAll(h, columns, terms, a, b)
  {
    var all := [t] + terms;
    assert forall k :: 0 < k < |all| ==> all[k] == terms[k - 1];
    if TieAll(h, columns, all, a, b) {
      assert all[0] == t;
      forall k | 0 <= k < |terms| ensures Ties(h, columns, terms[k], a, b) {
        assert all[k + 1] == terms[k];
      }
    }
  }

  ghost function TiedWith(h: Host, columns: seq<string>, terms: seq<OrderTerm>, g: Record): Record -> bool {
    row => TieAll(h, columns, terms, g, row)
  }

  lemma {:induction false} FilterAlike<T>(s: seq<T>, p: T -> bool, q: T -> bool)
    requires forall i :: 0 <= i < |s| ==> p(s[i]) == q(s[i])
    ensures Filter(s, p) == Filter(s, q)
  {
    if s != [] { FilterAlike(s[1..], p, q); }
  }

  // A stable sort by the comparison is one by the order above.
  lemma SortedMeaning(h: Host, columns: seq<string>, terms: seq<OrderTerm>, input: seq<Record>, rows: seq<Record>)
    requires h.Lawful()
    requires Sorted(rows, Lex(TermCmps(h, columns, terms))) && StableImage(input, rows, Lex(TermCmps(h, columns, terms)))
    ensures forall i, j :: 0 <= i < j < |rows| ==> InOrder(h, columns, terms, rows[i], rows[j])
    ensures forall g :: Filter(input, TiedWith(h, columns, terms, g)) == Filter(rows, TiedWith(h, columns, terms, g))
  {
    var lex := Lex(TermCmps(h, columns, terms));
    forall i, j | 0 <= i < j < |rows| ensures InOrder(h, columns, terms, rows[i], rows[j]) {
      LexExact(h, columns, terms, rows[i], rows[j]);
    }
    forall g ensures Filter(input, TiedWith(h, columns, terms, g)) == Filter(rows, TiedWith(h, columns, terms, g)) {
      forall x ensures Same(lex, g)(x) == TiedWith(h, columns, terms, g)(x) {
        LexExact(h, columns, terms, g, x);
      }
      FilterAlike(input, Same(lex, g), TiedWith(h, columns, terms, g));
      FilterAlike(rows, Same(lex, g), TiedWith(h, columns, terms, g));
      assert Filter(input, Same(lex, g)) == Filter(rows, Same(lex, g));
    }
  }

  // The executor's loop: it visits the terms from last to first, sorts the
  // rows in place, and skips terms that name no column. Whatever the terms and
  // the mix of value types, the rows end in order of all terms, the first one
  // foremost, and ties keep their input order.
  method ApplyOrderBy(h: Host, columns: seq<string>, input: seq<Record>, terms: seq<OrderTerm>) returns (rows: seq<Record>)
    requires h.Lawful()
    ensures forall i, j :: 0 <= i < j < |rows| ==> InOrder(h, columns, terms, rows[i], rows[j])
    ensures forall g :: Filter(input, TiedWith(h, columns, terms, g)) == Filter(rows, TiedWith(h, columns, terms, g))
    ensures multiset(rows) == multiset(input)
    ensures Sorted(rows, Lex(TermCmps(h, columns, terms)))
    ensures StableImage(input, rows, Lex(TermCmps(h, columns, terms)))
  {
    ghost var cmps := TermCmps(h, columns, terms);
    forall i | 0 <= i < |cmps| ensures TotalPreorder(cmps[i]) {
      TermPreorder(h, columns, terms[i]);
    }
    rows := input;
    var i := |terms|;
    while i > 0
      invariant 0 <= i <= |terms|
      invariant rows == Passes(input, cmps[i..])
    {
      i := i - 1;
      var cmp := TermCmp(h, columns, terms[i]);
      if Resolve(columns, terms[i]).Some? {
        rows := StableSort(rows, cmp);
      } else {
        SortAllEqual(rows, cmp);
      }
      assert cmps[i..][0] == cmp && cmps[i..][1..] == cmps[i + 1..];
    }
    assert cmps[0..] == cmps;
    PassesAreLexicographic(input, cmps);
    SortElements(input, Lex(cmps));
    SortedMeaning(h, columns, terms, input, rows);
  }

  // ----- the first term, type by type

  // If rows are in order and the first term is about column `c`, that column
  // is in order from top to bottom: ascending, no cell comes before an earlier
  // one, and descending the other way round.
  lemma FirstTermOrders(h: Host, columns: seq<string>, terms: seq<OrderTerm>, a: Record, b: Record, c: nat)
    requires h.Lawful() && terms != [] && About(columns, terms[0], c) && InOrder(h, columns, terms, a, b)
    ensures terms[0].Ascending() ==> !Below(h, Cell(b, c), Cell(a, c))
    ensures !terms[0].Ascending() ==> !Below(h, Cell(a, c), Cell(b, c))
  {
    var t := terms[0];
    ResolveExact(columns, t, c);
    TermCmpExact(h, columns, t, a, b);
    InOrderTail(h, columns, terms, a, b);
    CmpJsonExact(h, Cell(a, c), Cell(b, c));
  }

  // So numbers increase or decrease by size, strings by their characters,
  // booleans from false to true or back, and nulls come first or last.
  lemma FirstTermTypes(h: Host, columns: seq<string>, terms: seq<OrderTerm>, a: Record, b: Record, c: nat, asc: bool)
    requires h.Lawful() && terms != [] && About(columns, terms[0], c) && InOrder(h, columns, terms, a, b)
    requires terms[0] == Position(c + 1, asc) || (terms[0].Header? && terms[0].ascH == asc)
    ensures var x, y := if c < |a| then a[c] else Null, if c < |b| then b[c] else Null;
      TypesInOrder(if asc then x else y, if asc then y else x)
  {
    FirstTermOrders(h, columns, terms, a, b, c);
    var x, y := if asc then Cell(a, c) else Cell(b, c), if asc then Cell(b, c) else Cell(a, c);
    if x.String? && y.String? { CmpTextExact(x.s, y.s); }
  }

  ghost predicate TypesInOrder(x: Value, y: Value) {
    && (x.Number? && y.Number? ==> NumReal(x.n) <= NumReal(y.n))
    && (x.String? && y.String? ==> x.s == y.s || TextBelow(x.s, y.s))
    && (x.Bool? && y.Bool? ==> x.b ==> y.b)
    && (y.Null? ==> x.Null?)
  }
}
