// Printing a VALUES list and parsing it back, byte by byte: the strings of the
// values are given as the bytes that stand between the quotes.
module InsertRoundTrip {
  import opened Common
  import opened Json
  import opened InsertValues
  import opened Text

  // ----- printing

  function PrintInt(n: int): string {
    if n < 0 then "-" + Digits(-n) else Digits(n)
  }

  function Escaped(c: char): string {
    if c == '\'' || c == '\\' then [c, c] else [c]
  }

  // Quotes doubled, backslashes escaped.
  function EscapeQuoted(s: string): string {
    if s == "" then "" else Escaped(s[0]) + EscapeQuoted(s[1..])
  }

  // NULL, booleans, 64-bit integers and strings.
  predicate Printable(v: Value) {
    match v
    case Null => true
    case Bool(_) => true
    case Number(Int(i)) => I64_MIN <= i <= I64_MAX
    case String(_) => true
    case _ => false
  }

  function PrintValue(v: Value): string {
    match v
    case Null => "NULL"
    case Bool(b) => if b then "TRUE" else "FALSE"
    case Number(Int(i)) => PrintInt(i)
    case String(s) => "'" + EscapeQuoted(s) + "'"
    case _ => ""
  }

  // What is read for a printed value: a string that is JSON text is taken for
  // the value it denotes.
  function ReadValue(lib: Lib, v: Value): Value {
    match v
    case String(s) => StringValue(lib, s)
    case _ => v
  }

  function ReadTuple(lib: Lib): Tuple -> Tuple {
    vs => Map(vs, (v: Value) => ReadValue(lib, v))
  }

  // Tuples and lists are printed with `pr` for their elements, one comma and
  // one space in between.
  function PrintMore<T>(pr: T -> string, xs: seq<T>): string {
    if xs == [] then "" else ", " + pr(xs[0]) + PrintMore(pr, xs[1..])
  }

  function PrintList<T>(pr: T -> string, xs: seq<T>): string {
    if xs == [] then "" else pr(xs[0]) + PrintMore(pr, xs[1..])
  }

  function TuplePrinter(pr: Value -> string): Tuple -> string {
    vs => "(" + PrintList(pr, vs) + ")"
  }

  function PrintTuples(ts: seq<Tuple>): string {
    PrintList(TuplePrinter(PrintValue), ts)
  }

  // ----- integers

  lemma IntInverse(lib: Lib, n: int)
    requires I64_MIN <= n <= I64_MAX
    ensures NumberValue(lib, PrintInt(n)) == Number(Int(n))
  {
    var s := PrintInt(n);
    DigitsInverse(if n < 0 then -n else n);
    if n < 0 { assert s[1..] == Digits(-n); }
    assert '.' !in s;
  }

  lemma {:induction false} SkipAll(s: string, pos: nat, end: nat, p: char -> bool)
    requires pos <= end <= |s| && forall i :: pos <= i < end ==> p(s[i])
    requires end < |s| ==> !p(s[end])
    ensures Skip(s, pos, p) == end
    decreases end - pos
  {
    if pos < end { SkipAll(s, pos + 1, end, p); }
  }

  predicate EndsValue(rest: string) {
    rest == "" || StopsNumber(rest[0])
  }

  lemma IntRoundTrip(lib: Lib, n: int, rest: string)
    requires I64_MIN <= n <= I64_MAX && EndsValue(rest)
    ensures ParseValue(lib, PrintInt(n) + rest) == Ok(Number(Int(n)), |PrintInt(n)|)
  {
    var d := PrintInt(n);
    var s := d + rest;
    PrintIntChars(n);
    forall i | 0 <= i < |d| ensures NumberChar(s[i]) {
      assert s[i] == d[i];
    }
    SkipAll(s, 0, |d|, NumberChar);
    assert s[..|d|] == d;
    IntInverse(lib, n);
    NumberBranch(lib, s);
  }

  lemma PrintIntChars(n: int)
    ensures var d := PrintInt(n);
      d != "" && forall i :: 0 <= i < |d| ==> IsDigit(d[i]) || d[i] == '-'
  {
    DigitsInverse(if n < 0 then -n else n);
  }

  lemma NumberBranch(lib: Lib, s: string)
    requires s != "" && (IsDigit(s[0]) || s[0] == '-')
    ensures ParseValue(lib, s) == Ok(NumberValue(lib, s[..Skip(s, 0, NumberChar)]), Skip(s, 0, NumberChar))
  {
    assert Skip(s, 0, IsSpace) == 0 && s[0..] == s;
  }

  // ----- strings

  lemma Reassociate(a: string, b: string, c: string, d: string)
    ensures a + b + c + d == a + (b + (c + d))
  {
  }

  lemma DropPrefix(s: string, pos: nat, a: string, b: string)
    requires pos <= |s| && s[pos..] == a + b
    ensures pos + |a| <= |s| && s[pos + |a|..] == b
  {
    assert s[pos + |a|..] == s[pos..][|a|..];
  }

  lemma HeadOfTwo(t: string, i: nat, e: string, more: string)
    requires e != "" && more != "" && i <= |t| && t[i..] == e + more
    ensures i + |e| < |t| && t[i + |e|..] == more && t[i] == e[0]
    ensures t[i + 1] == if |e| > 1 then e[1] else more[0]
  {
    DropPrefix(t, i, e, more);
    assert t[i] == t[i..][0] && t[i + 1] == t[i..][1];
  }

  lemma EscapedHead(t: string, i: nat, s: string, rest: string)
    requires s != "" && i <= |t| && t[i..] == EscapeQuoted(s) + ("'" + rest)
    ensures var n := |Escaped(s[0])|;
      && i + n < |t| && t[i + n..] == EscapeQuoted(s[1..]) + ("'" + rest)
      && t[i] == s[0] && (n == 2 ==> t[i + 1] == s[0])
  {
    Regroup(Escaped(s[0]), EscapeQuoted(s[1..]), "'" + rest);
    HeadOfTwo(t, i, Escaped(s[0]), EscapeQuoted(s[1..]) + ("'" + rest));
  }

  lemma ClosingQuote(t: string, i: nat, buf: string, rest: string)
    requires i <= |t| && t[i..] == "" + ("'" + rest) && (rest == "" || rest[0] != '\'')
    ensures QuotedFrom(t, i, buf) == Quoted(buf, i + 1)
  {
    assert t[i] == t[i..][0] == '\'';
    assert |rest| > 0 ==> t[i + 1] == t[i..][1] == rest[0];
  }

  lemma {:induction false} QuotedRoundTrip(t: string, i: nat, buf: string, s: string, rest: string)
    requires i <= |t| && t[i..] == EscapeQuoted(s) + ("'" + rest)
    requires rest == "" || rest[0] != '\''
    ensures QuotedFrom(t, i, buf) == Quoted(buf + s, |t| - |rest|)
    decreases |s|
  {
    if s == "" {
      ClosingQuote(t, i, buf, rest);
      assert buf + s == buf;
    } else {
      EscapedHead(t, i, s, rest);
      QuotedRoundTrip(t, i + |Escaped(s[0])|, buf + [s[0]], s[1..], rest);
      MoveHead(buf, s);
    }
  }

  lemma StringRoundTrip(lib: Lib, s: string, rest: string)
    requires EndsValue(rest)
    ensures ParseValue(lib, PrintValue(String(s)) + rest) == Ok(StringValue(lib, s), |PrintValue(String(s))|)
  {
    var t := PrintValue(String(s)) + rest;
    assert t[0] == '\'';
    assert Skip(t, 0, IsSpace) == 0 && t[0..] == t;
    assert t[1..] == EscapeQuoted(s) + ("'" + rest);
    QuotedRoundTrip(t, 1, "", s, rest);
    assert "" + s == s;
  }

  // ----- values

  lemma KeywordRoundTrip(lib: Lib, v: Value, rest: string)
    requires v.Null? || v.Bool?
    ensures ParseValue(lib, PrintValue(v) + rest) == Ok(v, |PrintValue(v)|)
  {
    var w := PrintValue(v);
    var s := w + rest;
    assert forall i :: 0 <= i < |w| ==> s[i] == w[i];
    assert Skip(s, 0, IsSpace) == 0 && s[0..] == s;
  }

  // Parsing a printed value gives what is read for it and stops where it ends.
  lemma ValueRoundTrip(lib: Lib, v: Value, rest: string)
    requires Printable(v) && EndsValue(rest)
    ensures ParseValue(lib, PrintValue(v) + rest) == Ok(ReadValue(lib, v), |PrintValue(v)|)
  {
    match v
    case Null => KeywordRoundTrip(lib, v, rest);
    case Bool(_) => KeywordRoundTrip(lib, v, rest);
    case Number(Int(i)) => IntRoundTrip(lib, i, rest);
    case String(s) => StringRoundTrip(lib, s, rest);
  }

  // ----- lists, for any stepper that takes `y` where `pr(x)` is printed

  // From `p` the stepper takes `x`, possibly after one move, and goes to `q`.
  ghost predicate Leads<T>(next: Stepper<T>, p: nat, x: T, q: nat) {
    next(p) == Item(x, q) || (next(p) == Move(p + 1) && next(p + 1) == Item(x, q))
  }

  // The stepper takes every element that follows a separator.
  ghost predicate ReadsMore<T>(next: Stepper<T>, s: string, pr: T -> string, x: T, y: T) {
    forall p: nat, rest :: p <= |s| && s[p..] == ", " + (pr(x) + rest) && EndsValue(rest) ==> Leads(next, p, y, p + 2 + |pr(x)|)
  }

  ghost predicate AllRead<T>(next: Stepper<T>, s: string, pr: T -> string, xs: seq<T>, ys: seq<T>) {
    |xs| == |ys| && forall i :: 0 <= i < |xs| ==> ReadsMore(next, s, pr, xs[i], ys[i])
  }

  lemma TakesOne<T>(next: Stepper<T>, limit: nat, p: nat, found: seq<T>, x: T, q: nat)
    requires Forward(next, limit) && p < q <= limit && Leads(next, p, x, q)
    ensures Collect(next, limit, p, found) == Collect(next, limit, q, found + [x])
  {
    if next(p) != Item(x, q) {
      assert Collect(next, limit, p, found) == Collect(next, limit, p + 1, found);
    }
  }

  lemma MoreEnds<T>(pr: T -> string, xs: seq<T>, rest: string)
    requires EndsValue(rest)
    ensures EndsValue(PrintMore(pr, xs) + rest)
  {
    if xs == [] { assert PrintMore(pr, xs) + rest == rest; }
  }

  // The first element of a printed list tail is where the tail starts.
  lemma MoreSplit<T>(s: string, pr: T -> string, pos: nat, xs: seq<T>, rest: string)
    requires xs != [] && EndsValue(rest)
    requires pos <= |s| && s[pos..] == PrintMore(pr, xs) + rest
    ensures var p, tail := pr(xs[0]), PrintMore(pr, xs[1..]) + rest;
      && s[pos..] == ", " + (p + tail) && EndsValue(tail)
      && pos + 2 + |p| <= |s| && s[pos + 2 + |p|..] == tail
      && |PrintMore(pr, xs)| == 2 + |p| + |PrintMore(pr, xs[1..])|
  {
    var p, tail := pr(xs[0]), PrintMore(pr, xs[1..]) + rest;
    Reassociate(", ", p, PrintMore(pr, xs[1..]), rest);
    DropPrefix(s, pos, ", ", p + tail);
    DropPrefix(s, pos + 2, p, tail);
    MoreEnds(pr, xs[1..], rest);
  }

  lemma FirstOfMore<T>(next: Stepper<T>, s: string, pr: T -> string, pos: nat, xs: seq<T>, y: T, rest: string)
    requires xs != [] && EndsValue(rest) && ReadsMore(next, s, pr, xs[0], y)
    requires pos <= |s| && s[pos..] == PrintMore(pr, xs) + rest
    ensures var q := pos + 2 + |pr(xs[0])|;
      && Leads(next, pos, y, q) && q <= |s| && s[q..] == PrintMore(pr, xs[1..]) + rest
      && pos + |PrintMore(pr, xs)| == q + |PrintMore(pr, xs[1..])|
  {
    MoreSplit(s, pr, pos, xs, rest);
  }

  // What the loop returns from each position and list of items found.
  type Runner<!T> = (nat, seq<T>) -> Parsed<seq<T>>

  function RunnerOf<T>(next: Stepper<T>, limit: nat): Runner<T>
    requires Forward(next, limit)
  {
    (p: nat, found: seq<T>) => if p <= limit then Collect(next, limit, p, found) else Err(UnterminatedTuple)
  }

  // The result does not change when an item is taken on the way.
  ghost predicate Takes<T(!new)>(run: Runner<T>, next: Stepper<T>, limit: nat) {
    forall p: nat, found, x, q: nat {:trigger Leads(next, p, x, q), run(p, found)} ::
      p < q <= limit && Leads(next, p, x, q) ==> run(p, found) == run(q, found + [x])
  }

  lemma RunnerIs<T>(next: Stepper<T>, limit: nat, p: nat, found: seq<T>)
    requires Forward(next, limit) && p <= limit
    ensures RunnerOf(next, limit)(p, found) == Collect(next, limit, p, found)
  {
  }

  lemma RunnerTakes<T(!new)>(next: Stepper<T>, limit: nat)
    requires Forward(next, limit)
    ensures Takes(RunnerOf(next, limit), next, limit)
  {
    forall p: nat, found, x, q: nat | p < q <= limit && Leads(next, p, x, q)
      ensures RunnerOf(next, limit)(p, found) == RunnerOf(next, limit)(q, found + [x])
    {
      TakesOne(next, limit, p, found, x, q);
    }
  }

  lemma RunItem<T(!new)>(run: Runner<T>, next: Stepper<T>, limit: nat, p: nat, found: seq<T>, x: T, q: nat)
    requires Takes(run, next, limit) && p < q <= limit && Leads(next, p, x, q)
    ensures run(p, found) == run(q, found + [x])
  {
  }

  lemma AllReadTail<T>(next: Stepper<T>, s: string, pr: T -> string, xs: seq<T>, ys: seq<T>)
    requires AllRead(next, s, pr, xs, ys) && xs != []
    ensures ReadsMore(next, s, pr, xs[0], ys[0]) && AllRead(next, s, pr, xs[1..], ys[1..])
  {
  }

  lemma RunFirst<T(!new)>(run: Runner<T>, next: Stepper<T>, s: string, pr: T -> string, pos: nat, found: seq<T>, xs: seq<T>, y: T, rest: string)
    requires Takes(run, next, |s|) && EndsValue(rest) && xs != [] && ReadsMore(next, s, pr, xs[0], y)
    requires pos <= |s| && s[pos..] == PrintMore(pr, xs) + rest
    ensures var q := pos + 2 + |pr(xs[0])|;
      && q <= |s| && s[q..] == PrintMore(pr, xs[1..]) + rest && run(pos, found) == run(q, found + [y])
      && pos + |PrintMore(pr, xs)| == q + |PrintMore(pr, xs[1..])|
  {
    FirstOfMore(next, s, pr, pos, xs, y, rest);
    RunItem(run, next, |s|, pos, found, y, pos + 2 + |pr(xs[0])|);
  }

  // Running from a printed list tail takes exactly its elements.
  lemma {:induction false} RunPrinted<T(!new)>(run: Runner<T>, next: Stepper<T>, s: string, pr: T -> string, pos: nat, found: seq<T>, xs: seq<T>, ys: seq<T>, rest: string)
    requires Takes(run, next, |s|) && EndsValue(rest) && AllRead(next, s, pr, xs, ys)
    requires pos <= |s| && s[pos..] == PrintMore(pr, xs) + rest
    ensures pos + |PrintMore(pr, xs)| <= |s|
    ensures run(pos, found) == run(pos + |PrintMore(pr, xs)|, found + ys)
    decreases |xs|
  {
    if xs == [] {
      assert found + ys == found;
    } else {
      MoveHead(found, ys);
      AllReadTail(next, s, pr, xs, ys);
      RunFirst(run, next, s, pr, pos, found, xs, ys[0], rest);
      RunPrinted(run, next, s, pr, pos + 2 + |pr(xs[0])|, found + [ys[0]], xs[1..], ys[1..], rest);
    }
  }

  lemma RestOfList<T>(s: string, pr: T -> string, pos: nat, xs: seq<T>, rest: string)
    requires xs != [] && pos <= |s| && s[pos..] == PrintList(pr, xs) + rest
    ensures var q := pos + |pr(xs[0])|;
      && q <= |s| && s[q..] == PrintMore(pr, xs[1..]) + rest
      && pos + |PrintList(pr, xs)| == q + |PrintMore(pr, xs[1..])|
  {
    ListSplit(pr, xs, rest);
    DropPrefix(s, pos, pr(xs[0]), PrintMore(pr, xs[1..]) + rest);
  }

  // The first element is taken where the list starts, the others after their
  // separators.
  ghost predicate ListRead<T>(next: Stepper<T>, s: string, pr: T -> string, pos: nat, xs: seq<T>, ys: seq<T>) {
    |xs| == |ys| &&
    (xs != [] ==> Leads(next, pos, ys[0], pos + |pr(xs[0])|) && pr(xs[0]) != "" && AllRead(next, s, pr, xs[1..], ys[1..]))
  }

  lemma RunList<T(!new)>(run: Runner<T>, next: Stepper<T>, s: string, pr: T -> string, pos: nat, xs: seq<T>, ys: seq<T>, rest: string)
    requires Takes(run, next, |s|) && EndsValue(rest) && ListRead(next, s, pr, pos, xs, ys)
    requires pos <= |s| && s[pos..] == PrintList(pr, xs) + rest
    ensures pos + |PrintList(pr, xs)| <= |s| && run(pos, []) == run(pos + |PrintList(pr, xs)|, ys)
  {
    if xs != [] {
      var none: seq<T>, q := [], pos + |pr(xs[0])|;
      RestOfList(s, pr, pos, xs, rest);
      RunItem(run, next, |s|, pos, none, ys[0], q);
      RunPrinted(run, next, s, pr, q, none + [ys[0]], xs[1..], ys[1..], rest);
      MoveHead(none, ys);
      assert none + ys == ys;
    }
  }

  // Collecting from a printed list takes exactly its elements.
  lemma CollectThrough<T(!new)>(next: Stepper<T>, s: string, pr: T -> string, pos: nat, xs: seq<T>, ys: seq<T>, rest: string)
    requires Forward(next, |s|) && EndsValue(rest) && ListRead(next, s, pr, pos, xs, ys)
    requires pos <= |s| && s[pos..] == PrintList(pr, xs) + rest
    ensures pos + |PrintList(pr, xs)| <= |s|
    ensures Collect(next, |s|, pos, []) == Collect(next, |s|, pos + |PrintList(pr, xs)|, ys)
  {
    RunnerTakes(next, |s|);
    RunList(RunnerOf(next, |s|), next, s, pr, pos, xs, ys, rest);
    RunnerIs(next, |s|, pos, []);
    RunnerIs(next, |s|, pos + |PrintList(pr, xs)|, ys);
  }

  lemma CollectList<T(!new)>(next: Stepper<T>, s: string, pr: T -> string, pos: nat, xs: seq<T>, ys: seq<T>, rest: string, end: nat)
    requires Forward(next, |s|) && EndsValue(rest) && ListRead(next, s, pr, pos, xs, ys)
    requires pos <= |s| && s[pos..] == PrintList(pr, xs) + rest
    requires next(pos + |PrintList(pr, xs)|) == Stop(end)
    ensures Collect(next, |s|, pos, []) == Ok(ys, end)
  {
    CollectThrough(next, s, pr, pos, xs, ys, rest);
  }

  lemma ListSplit<T>(pr: T -> string, xs: seq<T>, rest: string)
    requires xs != []
    ensures PrintList(pr, xs) + rest == pr(xs[0]) + (PrintMore(pr, xs[1..]) + rest)
    ensures |PrintList(pr, xs)| == |pr(xs[0])| + |PrintMore(pr, xs[1..])|
  {
    Reassociate("", pr(xs[0]), PrintMore(pr, xs[1..]), rest);
    assert "" + pr(xs[0]) == pr(xs[0]);
  }

  lemma FirstItem<T>(next: Stepper<T>, limit: nat, p: nat, x: T, q: nat)
    requires Forward(next, limit) && p < q <= limit && next(p) == Item(x, q)
    ensures Collect(next, limit, p, []) == Collect(next, limit, q, [x])
  {
    var none: seq<T> := [];
    assert none + [x] == [x];
  }

  // ----- tuples

  predicate StartsValue(s: string) {
    s != "" && !IsBlank(s[0]) && s[0] != ',' && s[0] != ')'
  }

  // The parser reads `y` for the printed value and uses no more.
  ghost predicate ReadsBack(pv: ValueParser, pr: Value -> string, v: Value, y: Value) {
    && StartsValue(pr(v))
    && forall rest :: EndsValue(rest) ==> pv(pr(v) + rest) == Ok(y, |pr(v)|)
  }

  ghost predicate AllReadBack(pv: ValueParser, pr: Value -> string, vs: Tuple, ys: Tuple) {
    |vs| == |ys| && forall i :: 0 <= i < |vs| ==> ReadsBack(pv, pr, vs[i], ys[i])
  }

  lemma ValueAt(pv: ValueParser, s: string, pos: nat, blank: bool, v: Value, p: string, rest: string)
    requires Advances(pv) && StartsValue(p) && pv(p + rest) == Ok(v, |p|)
    requires pos <= |s| && s[pos..] == (if blank then " " else "") + (p + rest)
    ensures TupleNext(pv, s)(pos) == Item(v, pos + (if blank then 1 else 0) + |p|)
  {
    var at := pos + if blank then 1 else 0;
    DropPrefix(s, pos, if blank then " " else "", p + rest);
    assert s[at] == s[at..][0] == p[0];
    if blank { assert s[pos] == s[pos..][0] == ' '; }
    SkipAll(s, pos, at, IsBlank);
  }

  lemma ValueReadsMore(pv: ValueParser, pr: Value -> string, s: string, v: Value, y: Value)
    requires Advances(pv) && ReadsBack(pv, pr, v, y)
    ensures ReadsMore(TupleNext(pv, s), s, pr, v, y)
  {
    var next := TupleNext(pv, s);
    forall p: nat, rest | p <= |s| && s[p..] == ", " + (pr(v) + rest) && EndsValue(rest)
      ensures Leads(next, p, y, p + 2 + |pr(v)|)
    {
      assert s[p..] == "," + (" " + (pr(v) + rest));
      CommaAt(pv, s, p, " " + (pr(v) + rest));
      ValueAt(pv, s, p + 1, true, y, pr(v), rest);
    }
  }

  lemma CommaAt(pv: ValueParser, s: string, p: nat, rest: string)
    requires Advances(pv) && p <= |s| && s[p..] == "," + rest
    ensures p + 1 <= |s| && s[p + 1..] == rest && TupleNext(pv, s)(p) == Move(p + 1)
  {
    assert s[p] == s[p..][0] == ',';
    DropPrefix(s, p, ",", rest);
  }

  lemma ParenAt(pv: ValueParser, s: string, p: nat, rest: string)
    requires Advances(pv) && p <= |s| && s[p..] == ")" + rest
    ensures TupleNext(pv, s)(p) == Stop(p + 1)
  {
    assert s[p] == s[p..][0] == ')';
  }

  lemma FirstValue(pv: ValueParser, pr: Value -> string, s: string, vs: Tuple, y: Value, rest: string)
    requires Advances(pv) && vs != [] && ReadsBack(pv, pr, vs[0], y) && EndsValue(rest)
    requires s != "" && s[1..] == PrintList(pr, vs) + rest
    ensures TupleNext(pv, s)(1) == Item(y, 1 + |pr(vs[0])|)
  {
    var tail := PrintMore(pr, vs[1..]) + rest;
    ListSplit(pr, vs, rest);
    MoreEnds(pr, vs[1..], rest);
    assert s[1..] == "" + (pr(vs[0]) + tail);
    ValueAt(pv, s, 1, false, y, pr(vs[0]), tail);
  }

  lemma ValuesRead(pv: ValueParser, pr: Value -> string, s: string, vs: Tuple, ys: Tuple, rest: string)
    requires Advances(pv) && AllReadBack(pv, pr, vs, ys) && EndsValue(rest)
    requires s != "" && s[1..] == PrintList(pr, vs) + rest
    ensures ListRead(TupleNext(pv, s), s, pr, 1, vs, ys)
  {
    if vs != [] {
      FirstValue(pv, pr, s, vs, ys[0], rest);
      forall i | 0 <= i < |vs[1..]| ensures ReadsMore(TupleNext(pv, s), s, pr, vs[1..][i], ys[1..][i]) {
        ValueReadsMore(pv, pr, s, vs[i + 1], ys[i + 1]);
      }
    }
  }

  lemma TupleRoundTrip(pv: ValueParser, pr: Value -> string, vs: Tuple, ys: Tuple, rest: string)
    requires Advances(pv) && AllReadBack(pv, pr, vs, ys)
    ensures TuplesOf(pv)(TuplePrinter(pr)(vs) + rest) == Ok(ys, |TuplePrinter(pr)(vs)|)
  {
    var s, body := TuplePrinter(pr)(vs) + rest, PrintList(pr, vs);
    Reassociate("(", body, ")", rest);
    assert s[1..] == body + (")" + rest);
    DropPrefix(s, 1, body, ")" + rest);
    ParenAt(pv, s, 1 + |body|, rest);
    ValuesRead(pv, pr, s, vs, ys, ")" + rest);
    CollectList(TupleNext(pv, s), s, pr, 1, vs, ys, ")" + rest, |TuplePrinter(pr)(vs)|);
  }

  // ----- lists of tuples

  ghost predicate TupleReadsBack(pt: TupleParser, pr: Tuple -> string, vs: Tuple, ys: Tuple) {
    && pr(vs) != "" && pr(vs)[0] == '('
    && forall rest :: pt(pr(vs) + rest) == Ok(ys, |pr(vs)|)
  }

  lemma TupleAt(pt: TupleParser, pr: Tuple -> string, s: string, pos: nat, sep: bool, vs: Tuple, ys: Tuple, rest: string)
    requires AdvancesTuples(pt) && TupleReadsBack(pt, pr, vs, ys)
    requires pos <= |s| && s[pos..] == (if sep then ", " else "") + (pr(vs) + rest)
    ensures TuplesNext(pt, s)(pos) == Item(ys, pos + (if sep then 2 else 0) + |pr(vs)|)
  {
    var at := pos + if sep then 2 else 0;
    DropPrefix(s, pos, if sep then ", " else "", pr(vs) + rest);
    assert s[at] == s[at..][0] == '(';
    if sep { assert s[pos] == s[pos..][0] && s[pos + 1] == s[pos..][1]; }
    SkipAll(s, pos, at, SeparatesTuples);
  }

  lemma TupleReadsMore(pt: TupleParser, pr: Tuple -> string, s: string, vs: Tuple, ys: Tuple)
    requires AdvancesTuples(pt) && TupleReadsBack(pt, pr, vs, ys)
    ensures ReadsMore(TuplesNext(pt, s), s, pr, vs, ys)
  {
    forall p: nat, rest | p <= |s| && s[p..] == ", " + (pr(vs) + rest)
      ensures Leads(TuplesNext(pt, s), p, ys, p + 2 + |pr(vs)|)
    {
      TupleAt(pt, pr, s, p, true, vs, ys, rest);
    }
  }

  lemma TuplesRoundTrip(pt: TupleParser, pr: Tuple -> string, ts: seq<Tuple>, ys: seq<Tuple>)
    requires AdvancesTuples(pt) && |ts| == |ys| && forall i :: 0 <= i < |ts| ==> TupleReadsBack(pt, pr, ts[i], ys[i])
    ensures var s := PrintList(pr, ts);
      Collect(TuplesNext(pt, s), |s|, 0, []) == Ok(ys, |s|)
  {
    var s := PrintList(pr, ts);
    var next := TuplesNext(pt, s);
    assert next(|s|) == Stop(|s|) by { assert Skip(s, |s|, SeparatesTuples) == |s|; }
    assert s[0..] == s + "";
    if ts != [] {
      assert s[0..] == "" + (pr(ts[0]) + PrintMore(pr, ts[1..]));
      TupleAt(pt, pr, s, 0, false, ts[0], ys[0], PrintMore(pr, ts[1..]));
    }
    forall i | 1 <= i < |ts| ensures ReadsMore(next, s, pr, ts[i], ys[i]) {
      TupleReadsMore(pt, pr, s, ts[i], ys[i]);
    }
    assert ListRead(next, s, pr, 0, ts, ys);
    CollectList(next, s, pr, 0, ts, ys, "", |s|);
  }

  lemma FirstCharOfValue(v: Value)
    requires Printable(v)
    ensures StartsValue(PrintValue(v))
  {
    match v
    case Number(Int(i)) => DigitsInverse(if i < 0 then -i else i);
    case _ =>
  }

  lemma TupleReadsBackIf(pv: ValueParser, pr: Value -> string, vs: Tuple, ys: Tuple)
    requires Advances(pv) && AllReadBack(pv, pr, vs, ys)
    ensures TupleReadsBack(TuplesOf(pv), TuplePrinter(pr), vs, ys)
  {
    var pt, prt := TuplesOf(pv), TuplePrinter(pr);
    assert prt(vs) != "" && prt(vs)[0] == '(';
    forall rest ensures pt(prt(vs) + rest) == Ok(ys, |prt(vs)|) {
      TupleRoundTrip(pv, pr, vs, ys, rest);
    }
  }

  lemma PrintableReadsBack(lib: Lib, v: Value)
    requires Printable(v)
    ensures ReadsBack(ValuesOf(lib), PrintValue, v, ReadValue(lib, v))
  {
    FirstCharOfValue(v);
    forall rest | EndsValue(rest) ensures ValuesOf(lib)(PrintValue(v) + rest) == Ok(ReadValue(lib, v), |PrintValue(v)|) {
      ValueRoundTrip(lib, v, rest);
    }
  }

  predicate AllPrintable(vs: Tuple) {
    forall j :: 0 <= j < |vs| ==> Printable(vs[j])
  }

  lemma PrintableTuple(lib: Lib, vs: Tuple)
    requires AllPrintable(vs)
    ensures AllReadBack(ValuesOf(lib), PrintValue, vs, ReadTuple(lib)(vs))
  {
    forall j | 0 <= j < |vs| ensures ReadsBack(ValuesOf(lib), PrintValue, vs[j], ReadTuple(lib)(vs)[j]) {
      PrintableReadsBack(lib, vs[j]);
    }
  }

  // Printing any list of tuples of NULLs, booleans, integers and strings and
  // parsing it consumes all the bytes and returns what is read for each value.
  lemma BytesRoundTrip(lib: Lib, ts: seq<Tuple>)
    requires forall i :: 0 <= i < |ts| ==> AllPrintable(ts[i])
    ensures ParseTuples(lib, PrintTuples(ts)) == Ok(Map(ts, ReadTuple(lib)), |PrintTuples(ts)|)
  {
    var pt, prt, ys := TuplesOf(ValuesOf(lib)), TuplePrinter(PrintValue), Map(ts, ReadTuple(lib));
    forall i | 0 <= i < |ts| ensures TupleReadsBack(pt, prt, ts[i], ys[i]) {
      PrintableTuple(lib, ts[i]);
      TupleReadsBackIf(ValuesOf(lib), PrintValue, ts[i], ReadTuple(lib)(ts[i]));
    }
    TuplesRoundTrip(pt, prt, ts, ys);
  }
}
