// White space in a tuple: the value parser trims it without counting it, and
// the tuple loop skips spaces and tabs only.
module InsertSpaces {
  import opened Common
  import opened Json
  import opened InsertValues
  import opened InsertRoundTrip
  import opened Text

  predicate AllSpace(w: string) {
    forall i :: 0 <= i < |w| ==> IsSpace(w[i])
  }

  predicate AllBlank(w: string) {
    forall i :: 0 <= i < |w| ==> IsBlank(w[i])
  }

  // Trimming: leading white space changes neither the value nor the count.
  lemma TrimIgnored(lib: Lib, w: string, x: string)
    requires AllSpace(w) && x != "" && !IsSpace(x[0])
    ensures ParseValue(lib, w + x) == ParseValue(lib, x)
  {
    SkipAll(w + x, 0, |w|, IsSpace);
    assert (w + x)[|w|..] == x;
    assert Skip(x, 0, IsSpace) == 0 && x[0..] == x;
  }

  lemma {:induction false} SkipStopsBy(s: string, pos: nat, k: nat, p: char -> bool)
    requires pos <= k < |s| && !p(s[k])
    ensures Skip(s, pos, p) <= k
    decreases k - pos
  {
    if p(s[pos]) { SkipStopsBy(s, pos + 1, k, p); }
  }

  lemma {:induction false} CollectGrows<T>(next: Stepper<T>, limit: nat, pos: nat, found: seq<T>)
    requires Forward(next, limit) && pos <= limit
    ensures var r := Collect(next, limit, pos, found);
      r.Ok? ==> |found| <= |r.value|
    decreases limit - pos
  {
    match next(pos)
    case Move(q) => CollectGrows(next, limit, q, found);
    case Item(x, q) => CollectGrows(next, limit, q, found + [x]);
    case _ =>
  }

  // From before a character that is no blank and no comma the tuple loop does
  // not get past it without another value.
  lemma {:induction false} ResumedTuple(pv: ValueParser, s: string, pos: nat, k: nat, found: Tuple)
    requires Advances(pv) && pos <= k < |s| && !IsBlank(s[k]) && s[k] != ','
    ensures var r := Collect(TupleNext(pv, s), |s|, pos, found);
      r.Ok? ==> r.used <= k + 1 || |found| < |r.value|
    decreases |s| - pos
  {
    var next := TupleNext(pv, s);
    assert next(pos) == TupleStep(pv, s, pos);
    SkipStopsBy(s, pos, k, IsBlank);
    match next(pos)
    case Move(q) => ResumedTuple(pv, s, q, k, found);
    case Item(v, q) => CollectGrows(next, |s|, q, found + [v]);
    case _ =>
  }

  // The text of a value ends in a character that is no blank and no comma.
  predicate EndsSolid(p: string) {
    p != "" && !IsBlank(p[|p| - 1]) && p[|p| - 1] != ','
  }

  lemma SolidValue(v: Value)
    requires Printable(v)
    ensures EndsSolid(PrintValue(v)) && !IsSpace(PrintValue(v)[0])
  {
    match v
    case Number(Int(i)) => DigitsInverse(if i < 0 then -i else i);
    case _ =>
  }

  // Blanks and the value parser: one round of the tuple loop.
  lemma ValueStep(pv: ValueParser, s: string, pos: nat, at: nat, v: Value, used: nat)
    requires Advances(pv) && pos <= at < |s| && pv(s[at..]) == Ok(v, used)
    requires forall i :: pos <= i < at ==> IsBlank(s[i])
    requires !IsBlank(s[at]) && s[at] != ',' && s[at] != ')'
    ensures TupleNext(pv, s)(pos) == Item(v, at + used)
  {
    SkipAll(s, pos, at, IsBlank);
  }

  // The blanks a text starts with.
  lemma {:induction false} BlankPrefix(w: string, pos: nat) returns (b: nat)
    requires pos <= |w| && forall i :: 0 <= i < pos ==> IsBlank(w[i])
    ensures pos <= b <= |w| && AllBlank(w[..b]) && (b < |w| ==> !IsBlank(w[b]))
    decreases |w| - pos
  {
    if pos < |w| && IsBlank(w[pos]) { b := BlankPrefix(w, pos + 1); } else { b := pos; }
  }

  // White space in front of a printed value is trimmed, and not counted.
  lemma SpacedValue(lib: Lib, w: string, v: Value, rest: string)
    requires Printable(v) && AllSpace(w) && EndsValue(rest)
    ensures ValuesOf(lib)(w + (PrintValue(v) + rest)) == Ok(ReadValue(lib, v), |PrintValue(v)|)
  {
    SolidValue(v);
    TrimIgnored(lib, w, PrintValue(v) + rest);
    ValueRoundTrip(lib, v, rest);
  }

  // The value parser gives `y` and `|p|` for the text `p`, whatever white space
  // stands before it.
  ghost predicate ReadsSpaced(pv: ValueParser, p: string, y: Value, rest: string) {
    && StartsValue(p) && EndsSolid(p)
    && forall w :: AllSpace(w) ==> pv(w + (p + rest)) == Ok(y, |p|)
  }

  predicate Separator(c: char) {
    c == ',' || c == ')'
  }

  // The value parser fails on white space before a separator.
  ghost predicate FailsOnSeparator(pv: ValueParser) {
    forall w, x :: AllSpace(w) && x != "" && Separator(x[0]) ==> pv(w + x).Err?
  }

  lemma SeparatorFails(lib: Lib, x: string)
    requires x != "" && Separator(x[0])
    ensures ParseValue(lib, x) == Err(UnexpectedChar(x[0]))
  {
    assert Skip(x, 0, IsSpace) == 0 && x[0..] == x;
  }

  lemma ParserFailsOnSeparator(lib: Lib)
    ensures FailsOnSeparator(ValuesOf(lib))
  {
    forall w, x | AllSpace(w) && x != "" && Separator(x[0]) ensures ValuesOf(lib)(w + x).Err? {
      TrimIgnored(lib, w, x);
      SeparatorFails(lib, x);
    }
  }

  lemma BlanksAt(s: string, pos: nat, w: string, rest: string, b: nat)
    requires pos <= |s| && s[pos..] == w + rest && b <= |w| && AllBlank(w[..b])
    ensures pos + b <= |s| && s[pos + b..] == w[b..] + rest && forall i :: pos <= i < pos + b ==> IsBlank(s[i])
  {
    assert w == w[..b] + w[b..];
    assert s[pos..] == w[..b] + (w[b..] + rest);
    DropPrefix(s, pos, w[..b], w[b..] + rest);
    forall i | pos <= i < pos + b ensures IsBlank(s[i]) {
      assert s[i] == s[pos..][i - pos] == w[..b][i - pos];
    }
  }

  // The value is taken where the blanks before it end.
  lemma SpacedItem(pv: ValueParser, s: string, pos: nat, w: string, b: nat, p: string, y: Value, rest: string)
    requires Advances(pv) && ReadsSpaced(pv, p, y, rest) && AllSpace(w)
    requires b <= |w| && AllBlank(w[..b]) && (b < |w| ==> !IsBlank(w[b]))
    requires pos <= |s| && s[pos..] == w + (p + rest)
    ensures TupleNext(pv, s)(pos) == Item(y, pos + b + |p|)
    ensures pos + b + |p| <= |s|
  {
    BlanksAt(s, pos, w, p + rest, b);
    assert s[pos + b] == s[pos + b..][0] == if b < |w| then w[b] else p[0];
    ValueStep(pv, s, pos, pos + b, y, |p|);
  }

  lemma TakesItem(pv: ValueParser, s: string, pos: nat, found: Tuple, y: Value, q: nat)
    requires Advances(pv) && pos <= q <= |s| && TupleNext(pv, s)(pos) == Item(y, q)
    ensures Collect(TupleNext(pv, s), |s|, pos, found) == Collect(TupleNext(pv, s), |s|, q, found + [y])
  {
  }

  lemma TakesSpaced(pv: ValueParser, s: string, pos: nat, w: string, b: nat, p: string, y: Value, rest: string, found: Tuple)
    requires Advances(pv) && ReadsSpaced(pv, p, y, rest) && AllSpace(w)
    requires b <= |w| && AllBlank(w[..b]) && (b < |w| ==> !IsBlank(w[b]))
    requires pos <= |s| && s[pos..] == w + (p + rest)
    ensures pos + b + |p| <= |s|
    ensures Collect(TupleNext(pv, s), |s|, pos, found) == Collect(TupleNext(pv, s), |s|, pos + b + |p|, found + [y])
  {
    SpacedItem(pv, s, pos, w, b, p, y, rest);
    TakesItem(pv, s, pos, found, y, pos + b + |p|);
  }

  // ----- white space after a value

  lemma SameStep(pv: ValueParser, s: string, pos: nat, at: nat)
    requires Advances(pv) && pos <= at < |s| && !IsBlank(s[at]) && forall i :: pos <= i < at ==> IsBlank(s[i])
    ensures TupleNext(pv, s)(pos) == TupleNext(pv, s)(at)
  {
    SkipAll(s, pos, at, IsBlank);
    SkipAll(s, at, at, IsBlank);
  }

  lemma SameCollect<T>(next: Stepper<T>, limit: nat, pos: nat, at: nat, found: seq<T>)
    requires Forward(next, limit) && pos <= at <= limit && next(pos) == next(at)
    ensures Collect(next, limit, pos, found) == Collect(next, limit, at, found)
  {
  }

  lemma BlanksEnd(s: string, pos: nat, u: string, rest: string)
    requires AllBlank(u) && rest != "" && Separator(rest[0]) && pos <= |s| && s[pos..] == u + rest
    ensures pos + |u| < |s| && s[pos + |u|..] == rest && s[pos + |u|] == rest[0]
    ensures forall i :: pos <= i < pos + |u| ==> IsBlank(s[i])
  {
    assert u[..|u|] == u && u[|u|..] == "" && "" + rest == rest;
    BlanksAt(s, pos, u, rest, |u|);
    assert s[pos + |u|] == s[pos + |u|..][0];
  }

  // Blanks before a separator are skipped.
  lemma BlanksSkipped(pv: ValueParser, s: string, pos: nat, u: string, rest: string, found: Tuple)
    requires Advances(pv) && AllBlank(u) && rest != "" && Separator(rest[0])
    requires pos <= |s| && s[pos..] == u + rest
    ensures pos + |u| <= |s| && s[pos + |u|..] == rest
    ensures Collect(TupleNext(pv, s), |s|, pos, found) == Collect(TupleNext(pv, s), |s|, pos + |u|, found)
  {
    var at := pos + |u|;
    BlanksEnd(s, pos, u, rest);
    SameStep(pv, s, pos, at);
    SameCollect(TupleNext(pv, s), |s|, pos, at, found);
  }

  // Other white space before one is an error.
  lemma SpaceFails(pv: ValueParser, s: string, pos: nat, u: string, rest: string, found: Tuple)
    requires Advances(pv) && FailsOnSeparator(pv) && AllSpace(u) && !AllBlank(u) && rest != "" && Separator(rest[0])
    requires pos <= |s| && s[pos..] == u + rest
    ensures Collect(TupleNext(pv, s), |s|, pos, found).Err?
  {
    var b := BlankPrefix(u, 0);
    assert b < |u| by { assert u[..|u|] == u; }
    BlanksAt(s, pos, u, rest, b);
    var at := pos + b;
    assert s[at] == s[at..][0] == u[b];
    SkipAll(s, pos, at, IsBlank);
    assert TupleNext(pv, s)(pos) == TupleStep(pv, s, pos);
    assert AllSpace(u[b..]) && pv(u[b..] + rest).Err?;
  }

  function TupleEnd(pr: Value -> string, after: Tuple): string {
    PrintMore(pr, after) + ")"
  }

  lemma TupleEndSeparates(pr: Value -> string, after: Tuple)
    ensures TupleEnd(pr, after) != "" && TupleEnd(pr, after)[0] == if after == [] then ')' else ','
  {
  }

  // From the end of a value on, the rest of a well-formed tuple is read.
  lemma RestRead(pv: ValueParser, pr: Value -> string, s: string, pos: nat, after: Tuple, ys: Tuple, found: Tuple)
    requires Advances(pv) && AllReadBack(pv, pr, after, ys)
    requires pos <= |s| && s[pos..] == TupleEnd(pr, after)
    ensures Collect(TupleNext(pv, s), |s|, pos, found) == Ok(found + ys, |s|)
  {
    var next, end := TupleNext(pv, s), pos + |PrintMore(pr, after)|;
    forall i | 0 <= i < |after| ensures ReadsMore(next, s, pr, after[i], ys[i]) {
      ValueReadsMore(pv, pr, s, after[i], ys[i]);
    }
    RunnerTakes(next, |s|);
    RunPrinted(RunnerOf(next, |s|), next, s, pr, pos, found, after, ys, ")");
    RunnerIs(next, |s|, pos, found);
    RunnerIs(next, |s|, end, found + ys);
    DropPrefix(s, pos, PrintMore(pr, after), ")");
    assert s[end..] == ")" + "";
    ParenAt(pv, s, end, "");
  }

  // White space between a value and what follows: blanks do no harm, other
  // white space is an error.
  lemma AfterValue(pv: ValueParser, pr: Value -> string, s: string, pos: nat, u: string, after: Tuple, ys: Tuple, found: Tuple)
    requires Advances(pv) && FailsOnSeparator(pv) && AllSpace(u) && AllReadBack(pv, pr, after, ys)
    requires pos <= |s| && s[pos..] == u + TupleEnd(pr, after)
    ensures Collect(TupleNext(pv, s), |s|, pos, found) == Ok(found + ys, |s|) <==> AllBlank(u)
  {
    TupleEndSeparates(pr, after);
    if AllBlank(u) {
      BlanksSkipped(pv, s, pos, u, TupleEnd(pr, after), found);
      RestRead(pv, pr, s, pos + |u|, after, ys, found);
    } else {
      SpaceFails(pv, s, pos, u, TupleEnd(pr, after), found);
    }
  }

  lemma DropTwo(s: string, pos: nat, a: string, b: string, c: string)
    requires pos <= |s| && s[pos..] == a + (b + c)
    ensures pos + |a| + |b| <= |s| && s[pos + |a| + |b|..] == c
  {
    DropPrefix(s, pos, a, b + c);
    DropPrefix(s, pos + |a|, b, c);
  }

  lemma TakesAfterBlanks(pv: ValueParser, s: string, pos: nat, w: string, p: string, y: Value, rest: string, found: Tuple)
    requires Advances(pv) && ReadsSpaced(pv, p, y, rest) && AllBlank(w)
    requires pos <= |s| && s[pos..] == w + (p + rest)
    ensures var q := pos + |w| + |p|;
      && q <= |s| && s[q..] == rest
      && Collect(TupleNext(pv, s), |s|, pos, found) == Collect(TupleNext(pv, s), |s|, q, found + [y])
  {
    assert w[..|w|] == w;
    TakesSpaced(pv, s, pos, w, |w|, p, y, rest, found);
    DropTwo(s, pos, w, p, rest);
  }

  // After blanks the value is taken where it stands, and what follows decides.
  lemma AfterBlanks(pv: ValueParser, pr: Value -> string, s: string, pos: nat, w: string, p: string, y: Value, u: string, after: Tuple, ys: Tuple, found: Tuple)
    requires Advances(pv) && FailsOnSeparator(pv) && AllBlank(w) && AllSpace(u) && AllReadBack(pv, pr, after, ys)
    requires ReadsSpaced(pv, p, y, u + TupleEnd(pr, after))
    requires pos <= |s| && s[pos..] == w + (p + (u + TupleEnd(pr, after)))
    ensures Collect(TupleNext(pv, s), |s|, pos, found) == Ok(found + [y] + ys, |s|) <==> AllBlank(u)
  {
    TakesAfterBlanks(pv, s, pos, w, p, y, u + TupleEnd(pr, after), found);
    AfterValue(pv, pr, s, pos + |w| + |p|, u, after, ys, found + [y]);
  }

  // ----- other white space before a value

  predicate NoString(v: Value) {
    !v.String?
  }

  // No quote and no opening parenthesis from `pos` on.
  predicate Clean(s: string, pos: nat) {
    forall i :: pos <= i < |s| ==> s[i] != '\'' && s[i] != '('
  }

  // On clean text a value never reaches past a separator.
  ghost predicate StaysBefore(pv: ValueParser) {
    forall x, e: nat :: e < |x| && Separator(x[e]) && Clean(x, 0) && pv(x).Ok? ==> pv(x).used <= e
  }

  lemma WordStays(t: string, word: string, e: nat)
    requires StartsWithUpper(t, word) && e < |t| && Separator(t[e])
    requires forall i :: 0 <= i < |word| ==> word[i] != ',' && word[i] != ')'
    ensures |word| <= e
  {
  }

  lemma NoNow(t: string, e: nat)
    requires e < |t| && Separator(t[e]) && Clean(t, 0)
    ensures !StartsWithUpper(t, "NOW()")
  {
    var word := "NOW()";
    assert word[3] == '(';
  }

  lemma TrimmedStays(lib: Lib, t: string, e: nat)
    requires e < |t| && Separator(t[e]) && Clean(t, 0) && !IsSpace(t[0]) && ParseValue(lib, t).Ok?
    ensures ParseValue(lib, t).used <= e
  {
    assert Skip(t, 0, IsSpace) == 0 && t[0..] == t;
    NoNow(t, e);
    if StartsWithUpper(t, "NULL") { WordStays(t, "NULL", e); }
    if StartsWithUpper(t, "TRUE") { WordStays(t, "TRUE", e); }
    if StartsWithUpper(t, "FALSE") { WordStays(t, "FALSE", e); }
    SkipStopsBy(t, 0, e, NumberChar);
  }

  lemma {:induction false} SkipSkips(s: string, pos: nat, p: char -> bool)
    requires pos <= |s|
    ensures forall i :: pos <= i < Skip(s, pos, p) ==> p(s[i])
    ensures Skip(s, pos, p) < |s| ==> !p(s[Skip(s, pos, p)])
    decreases |s| - pos
  {
    if pos < |s| && p(s[pos]) { SkipSkips(s, pos + 1, p); }
  }

  lemma ValueStays(lib: Lib, x: string, e: nat)
    requires e < |x| && Separator(x[e]) && Clean(x, 0) && ParseValue(lib, x).Ok?
    ensures ParseValue(lib, x).used <= e
  {
    var n := Skip(x, 0, IsSpace);
    SkipStopsBy(x, 0, e, IsSpace);
    SkipSkips(x, 0, IsSpace);
    assert x == x[..n] + x[n..];
    TrimIgnored(lib, x[..n], x[n..]);
    TrimmedStays(lib, x[n..], e - n);
  }

  lemma ParserStays(lib: Lib)
    ensures StaysBefore(ValuesOf(lib))
  {
    forall x, e: nat | e < |x| && Separator(x[e]) && Clean(x, 0) && ValuesOf(lib)(x).Ok? ensures ValuesOf(lib)(x).used <= e {
      ValueStays(lib, x, e);
    }
  }

  ghost predicate AllSolid(pr: Value -> string, vs: Tuple) {
    forall i :: 0 <= i < |vs| ==> EndsSolid(pr(vs[i]))
  }

  // Where the next value ends.
  lemma NextSolid(pr: Value -> string, s: string, at: nat, after: Tuple)
    requires after != [] && EndsSolid(pr(after[0])) && at <= |s| && s[at..] == TupleEnd(pr, after)
    ensures var k := at + 1 + |pr(after[0])|;
      k < |s| && !IsBlank(s[k]) && s[k] != ',' && s[k + 1..] == "" + TupleEnd(pr, after[1..])
  {
    var p, k := pr(after[0]), at + 1 + |pr(after[0])|;
    Reassociate(", ", p, PrintMore(pr, after[1..]), ")");
    DropPrefix(s, at, ", ", p + TupleEnd(pr, after[1..]));
    DropPrefix(s, at + 2, p, TupleEnd(pr, after[1..]));
    assert s[k] == s[at + 2..][|p| - 1] == p[|p| - 1];
  }

  lemma ItemStays(pv: ValueParser, s: string, pos: nat, at: nat, v: Value, q: nat)
    requires Advances(pv) && StaysBefore(pv) && Clean(s, pos) && pos <= at < |s| && Separator(s[at])
    requires TupleNext(pv, s)(pos) == Item(v, q)
    ensures q <= at
  {
    var p := Skip(s, pos, IsBlank);
    SkipStopsBy(s, pos, at, IsBlank);
    assert TupleNext(pv, s)(pos) == TupleStep(pv, s, pos);
    assert s[p..][at - p] == s[at];
    assert Clean(s[p..], 0);
  }

  lemma EndAt(pr: Value -> string, s: string, k: nat, u: string, after: Tuple)
    requires k < |s| && s[k + 1..] == u + TupleEnd(pr, after)
    ensures var at := k + 1 + |u|;
      at < |s| && s[at..] == TupleEnd(pr, after) && Separator(s[at])
  {
    var at := k + 1 + |u|;
    TupleEndSeparates(pr, after);
    DropPrefix(s, k + 1, u, TupleEnd(pr, after));
    assert s[at] == s[at..][0];
  }

  // Resumed inside a value the loop takes at least one value more than are
  // still to come.
  lemma {:induction false} Overcounts(pv: ValueParser, pr: Value -> string, s: string, pos: nat, k: nat, u: string, after: Tuple, found: Tuple)
    requires Advances(pv) && StaysBefore(pv) && AllSolid(pr, after) && Clean(s, pos) && AllSpace(u)
    requires pos <= k < |s| && !IsBlank(s[k]) && s[k] != ',' && s[k + 1..] == u + TupleEnd(pr, after)
    ensures var r := Collect(TupleNext(pv, s), |s|, pos, found);
      r.Ok? && r.used == |s| ==> |r.value| > |found| + |after|
    decreases |s| - pos, 1
  {
    var next := TupleNext(pv, s);
    assert next(pos) == TupleStep(pv, s, pos);
    SkipStopsBy(s, pos, k, IsBlank);
    EndAt(pr, s, k, u, after);
    match next(pos)
    case Move(q) => Overcounts(pv, pr, s, q, k, u, after, found);
    case Item(v, q) =>
      ItemStays(pv, s, pos, k + 1 + |u|, v, q);
      TakesItem(pv, s, pos, found, v, q);
      OneCounted(pv, pr, s, q, k + 1 + |u|, after, found + [v]);
    case _ =>
  }

  // After that value the others are still to come.
  lemma {:induction false} OneCounted(pv: ValueParser, pr: Value -> string, s: string, q: nat, at: nat, after: Tuple, found: Tuple)
    requires Advances(pv) && StaysBefore(pv) && AllSolid(pr, after) && Clean(s, q)
    requires q <= at < |s| && s[at..] == TupleEnd(pr, after)
    ensures var r := Collect(TupleNext(pv, s), |s|, q, found);
      r.Ok? && r.used == |s| ==> |r.value| >= |found| + |after|
    decreases |s| - q, 2
  {
    if after == [] {
      CollectGrows(TupleNext(pv, s), |s|, q, found);
    } else {
      NextSolid(pr, s, at, after);
      Overcounts(pv, pr, s, q, at + 1 + |pr(after[0])|, "", after[1..], found);
    }
  }

  // After other white space the value is taken and the loop goes on before its
  // last character.
  lemma ResumesInside(pv: ValueParser, s: string, pos: nat, w: string, p: string, y: Value, rest: string, found: Tuple) returns (q: nat)
    requires Advances(pv) && AllSpace(w) && !AllBlank(w) && ReadsSpaced(pv, p, y, rest)
    requires pos <= |s| && s[pos..] == w + (p + rest)
    ensures var k := pos + |w| + |p| - 1;
      && pos <= q <= k < |s| && !IsBlank(s[k]) && s[k] != ',' && s[k + 1..] == rest
      && Collect(TupleNext(pv, s), |s|, pos, found) == Collect(TupleNext(pv, s), |s|, q, found + [y])
  {
    var b := BlankPrefix(w, 0);
    assert b < |w| by { assert w[..|w|] == w; }
    q := pos + b + |p|;
    TakesSpaced(pv, s, pos, w, b, p, y, rest, found);
    LastOfTwo(s, pos, w, p, rest);
  }

  lemma LastOfTwo(s: string, pos: nat, w: string, p: string, rest: string)
    requires p != "" && pos <= |s| && s[pos..] == w + (p + rest)
    ensures var k := pos + |w| + |p| - 1;
      k < |s| && s[k] == p[|p| - 1] && s[k + 1..] == rest
  {
    var k := pos + |w| + |p| - 1;
    DropPrefix(s, pos, w, p + rest);
    DropPrefix(s, pos + |w|, p, rest);
    assert s[k] == s[pos + |w|..][|p| - 1];
  }

  // That gives a wrong tuple.
  lemma AfterSpaces(pv: ValueParser, pr: Value -> string, s: string, pos: nat, w: string, p: string, y: Value, u: string, after: Tuple, ys: Tuple, found: Tuple)
    requires Advances(pv) && StaysBefore(pv) && AllSpace(w) && !AllBlank(w) && AllSpace(u) && AllSolid(pr, after) && |ys| == |after|
    requires ReadsSpaced(pv, p, y, u + TupleEnd(pr, after)) && (after == [] || Clean(s, pos))
    requires pos <= |s| && s[pos..] == w + (p + (u + TupleEnd(pr, after)))
    ensures Collect(TupleNext(pv, s), |s|, pos, found) != Ok(found + [y] + ys, |s|)
  {
    var k := pos + |w| + |p| - 1;
    var q := ResumesInside(pv, s, pos, w, p, y, u + TupleEnd(pr, after), found);
    if after == [] {
      ResumedTuple(pv, s, q, k, found + [y]);
    } else {
      Overcounts(pv, pr, s, q, k, u, after, found + [y]);
    }
  }

  // ----- any tuple

  lemma PastComma(pv: ValueParser, s: string, pos: nat, rest: string, found: Tuple)
    requires Advances(pv) && pos <= |s| && s[pos..] == "," + rest
    ensures pos + 1 <= |s| && s[pos + 1..] == rest
    ensures Collect(TupleNext(pv, s), |s|, pos, found) == Collect(TupleNext(pv, s), |s|, pos + 1, found)
  {
    CommaAt(pv, s, pos, rest);
  }

  lemma UpToComma(pv: ValueParser, pr: Value -> string, s: string, vs: Tuple, ys: Tuple, rest: string)
    requires Advances(pv) && AllReadBack(pv, pr, vs, ys) && EndsValue(rest)
    requires s != "" && s[1..] == PrintList(pr, vs) + rest
    ensures var end := 1 + |PrintList(pr, vs)|;
      end <= |s| && s[end..] == rest && Collect(TupleNext(pv, s), |s|, 1, []) == Collect(TupleNext(pv, s), |s|, end, ys)
  {
    ValuesRead(pv, pr, s, vs, ys, rest);
    ListThrough(TupleNext(pv, s), s, pr, vs, ys, rest);
  }

  lemma ListThrough(next: Stepper<Value>, s: string, pr: Value -> string, vs: Tuple, ys: Tuple, rest: string)
    requires Forward(next, |s|) && EndsValue(rest) && ListRead(next, s, pr, 1, vs, ys)
    requires s != "" && s[1..] == PrintList(pr, vs) + rest
    ensures var end := 1 + |PrintList(pr, vs)|;
      end <= |s| && s[end..] == rest && Collect(next, |s|, 1, []) == Collect(next, |s|, end, ys)
  {
    CollectThrough(next, s, pr, 1, vs, ys, rest);
    DropPrefix(s, 1, PrintList(pr, vs), rest);
  }

  // The values before are read in order.
  lemma ValuesBefore(pv: ValueParser, pr: Value -> string, s: string, vs: Tuple, ys: Tuple, rest: string)
    requires Advances(pv) && AllReadBack(pv, pr, vs, ys)
    requires s != "" && s[1..] == PrintList(pr, vs) + ("," + rest)
    ensures var pos := 2 + |PrintList(pr, vs)|;
      pos <= |s| && s[pos..] == rest && Collect(TupleNext(pv, s), |s|, 1, []) == Collect(TupleNext(pv, s), |s|, pos, ys)
  {
    UpToComma(pv, pr, s, vs, ys, "," + rest);
    PastComma(pv, s, 1 + |PrintList(pr, vs)|, rest, ys);
  }

  function Before(pr: Value -> string, vs: Tuple): string {
    if vs == [] then "" else PrintList(pr, vs) + ","
  }

  // A tuple with white space on both sides of one of its values.
  function SpacedTuple(pr: Value -> string, vs: Tuple, w: string, v: Value, u: string, after: Tuple): string {
    "(" + (Before(pr, vs) + (w + (pr(v) + (u + TupleEnd(pr, after)))))
  }

  lemma OpenedText(front: string, rest: string)
    ensures var s := "(" + (front + rest);
      s != "" && s[1..] == front + rest && 1 + |front| <= |s| && s[1 + |front|..] == rest
  {
  }

  lemma ReachesValue(pv: ValueParser, pr: Value -> string, vs: Tuple, ys: Tuple, rest: string)
    requires Advances(pv) && AllReadBack(pv, pr, vs, ys)
    ensures var s, pos := "(" + (Before(pr, vs) + rest), 1 + |Before(pr, vs)|;
      pos <= |s| && s[pos..] == rest && TuplesOf(pv)(s) == Collect(TupleNext(pv, s), |s|, pos, ys)
  {
    var s := "(" + (Before(pr, vs) + rest);
    OpenedText(Before(pr, vs), rest);
    if vs != [] {
      Regroup(PrintList(pr, vs), ",", rest);
      ValuesBefore(pv, pr, s, vs, ys, rest);
    }
  }

  lemma PrintableSpaced(lib: Lib, v: Value, rest: string)
    requires Printable(v) && EndsValue(rest)
    ensures ReadsSpaced(ValuesOf(lib), PrintValue(v), ReadValue(lib, v), rest)
  {
    SolidValue(v);
    FirstCharOfValue(v);
    forall w | AllSpace(w) ensures ValuesOf(lib)(w + (PrintValue(v) + rest)) == Ok(ReadValue(lib, v), |PrintValue(v)|) {
      SpacedValue(lib, w, v, rest);
    }
  }

  lemma CleanValue(v: Value)
    requires Printable(v) && NoString(v)
    ensures Clean(PrintValue(v), 0)
  {
    match v
    case Number(Int(i)) => PrintIntChars(i);
    case _ =>
  }

  lemma {:induction false} CleanMore(after: Tuple)
    requires AllPrintable(after) && forall i :: 0 <= i < |after| ==> NoString(after[i])
    ensures Clean(PrintMore(PrintValue, after), 0)
  {
    if after != [] {
      CleanValue(after[0]);
      CleanMore(after[1..]);
    }
  }

  lemma CleanRest(s: string, pos: nat, w: string, v: Value, u: string, after: Tuple)
    requires AllSpace(w) && AllSpace(u) && Printable(v) && NoString(v)
    requires AllPrintable(after) && forall i :: 0 <= i < |after| ==> NoString(after[i])
    requires pos <= |s| && s[pos..] == w + (PrintValue(v) + (u + TupleEnd(PrintValue, after)))
    ensures Clean(s, pos)
  {
    CleanValue(v);
    CleanMore(after);
    assert Clean(s[pos..], 0);
    assert forall i :: pos <= i < |s| ==> s[i] == s[pos..][i - pos];
  }

  ghost predicate NoStringsFrom(v: Value, after: Tuple) {
    NoString(v) && forall i :: 0 <= i < |after| ==> NoString(after[i])
  }

  lemma ReadParts(lib: Lib, vs: Tuple, v: Value, after: Tuple)
    ensures ReadTuple(lib)(vs + [v] + after) == ReadTuple(lib)(vs) + [ReadValue(lib, v)] + ReadTuple(lib)(after)
  {
  }

  lemma SpaceDecides(lib: Lib, vs: Tuple, w: string, v: Value, u: string, after: Tuple)
    requires AllPrintable(vs) && Printable(v) && AllPrintable(after) && AllSpace(w) && AllSpace(u)
    requires AllBlank(w) || after == [] || NoStringsFrom(v, after)
    ensures var s := SpacedTuple(PrintValue, vs, w, v, u, after);
      TuplesOf(ValuesOf(lib))(s) == Ok(ReadTuple(lib)(vs) + [ReadValue(lib, v)] + ReadTuple(lib)(after), |s|) <==> AllBlank(w) && AllBlank(u)
  {
    var pv, s, rest := ValuesOf(lib), SpacedTuple(PrintValue, vs, w, v, u, after), u + TupleEnd(PrintValue, after);
    var pos, found, ys := 1 + |Before(PrintValue, vs)|, ReadTuple(lib)(vs), ReadTuple(lib)(after);
    PrintableTuple(lib, vs);
    PrintableTuple(lib, after);
    ReachesValue(pv, PrintValue, vs, found, w + (PrintValue(v) + rest));
    TupleEndSeparates(PrintValue, after);
    PrintableSpaced(lib, v, rest);
    if AllBlank(w) {
      ParserFailsOnSeparator(lib);
      AfterBlanks(pv, PrintValue, s, pos, w, PrintValue(v), ReadValue(lib, v), u, after, ys, found);
    } else {
      ParserStays(lib);
      forall i | 0 <= i < |after| ensures EndsSolid(PrintValue(after[i])) { SolidValue(after[i]); }
      if after != [] { CleanRest(s, pos, w, v, u, after); }
      AfterSpaces(pv, PrintValue, s, pos, w, PrintValue(v), ReadValue(lib, v), u, after, ys, found);
    }
  }

  // A tuple with white space around one of its values is read right exactly
  // when all of that is spaces and tabs. Other white space is allowed before
  // the last value, or before one from which on no value is a string.
  lemma WhiteSpaceExact(lib: Lib, vs: Tuple, w: string, v: Value, u: string, after: Tuple)
    requires AllPrintable(vs) && Printable(v) && AllPrintable(after) && AllSpace(w) && AllSpace(u)
    requires AllBlank(w) || after == [] || NoStringsFrom(v, after)
    ensures var s := SpacedTuple(PrintValue, vs, w, v, u, after);
      TuplesOf(ValuesOf(lib))(s) == Ok(ReadTuple(lib)(vs + [v] + after), |s|) <==> AllBlank(w) && AllBlank(u)
  {
    SpaceDecides(lib, vs, w, v, u, after);
    ReadParts(lib, vs, v, after);
  }

  lemma OneTwice(pv: ValueParser, one: Value)
    requires Advances(pv) && pv("\n1)") == Ok(one, 1) && pv("1)") == Ok(one, 1)
    ensures TuplesOf(pv)("(\n1)") == Ok([one, one], 4)
  {
    var s := "(\n1)";
    var next := TupleNext(pv, s);
    assert s[1..] == "\n1)" && s[2..] == "1)" && s[3..] == ")" + "";
    ValueStep(pv, s, 1, 1, one, 1);
    ValueStep(pv, s, 2, 2, one, 1);
    ParenAt(pv, s, 3, "");
    FirstItem(next, 4, 1, one, 2);
    assert [one] + [one] == [one, one];
    assert Collect(next, 4, 2, [one]) == Collect(next, 4, 3, [one, one]);
  }

  // The smallest instance: a newline, then one digit, gives two values.
  lemma NewlineRepeats(lib: Lib)
    ensures TuplesOf(ValuesOf(lib))("(\n1)") == Ok([Number(Int(1)), Number(Int(1))], 4)
  {
    var one := Number(Int(1));
    assert PrintValue(one) == "1";
    SpacedValue(lib, "\n", one, ")");
    SpacedValue(lib, "", one, ")");
    assert "\n" + ("1" + ")") == "\n1)" && "" + ("1" + ")") == "1)";
    OneTwice(ValuesOf(lib), one);
  }
}
