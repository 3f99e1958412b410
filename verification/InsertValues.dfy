// Parsing the VALUES list of an INSERT statement. The parser works on the
// bytes of the statement, written here as the characters of the same numbers,
// which is also how it puts them into the strings it reads.
module InsertValues {
  import opened Common
  import opened Json
  import Sql
  import opened Text

  // Library code: JSON text, floating-point text, the current time.
  datatype Lib = Lib(parseJson: string -> Option<Value>, parseF64: string -> Option<F64>, now: string) {
    // The JSON text of a string has two quotes and at least one character for
    // each of the string's, and no character outside ASCII that is not one of
    // the string's.
    ghost predicate Lawful() {
      forall t :: parseJson(t).Some? && parseJson(t).value.String? ==>
        |t| >= |parseJson(t).value.s| + 2 && NonAscii(t) <= NonAscii(parseJson(t).value.s)
    }
  }

  datatype ParseError = EmptyValue | UnexpectedChar(c: char) | UnterminatedTuple | ExpectedParen

  // A parsed value and how much text the parser says it took.
  datatype Parsed<+T> = Ok(value: T, used: nat) | Err(error: ParseError)

  type Tuple = seq<Value>

  const I64_MIN: int := -0x8000_0000_0000_0000
  const I64_MAX: int := 0x7fff_ffff_ffff_ffff

  // ----- character classes

  predicate IsBlank(c: char) {
    c == ' ' || c == '\t'
  }

  predicate IsSpace(c: char) {
    c == ' ' || 9 <= c as int <= 13
  }

  predicate StopsNumber(c: char) {
    c == ',' || c == ')' || IsSpace(c)
  }

  function UpperChar(c: char): char {
    if 'a' <= c <= 'z' then (c as int - 32) as char else c
  }

  predicate StartsWithUpper(s: string, word: string) {
    |word| <= |s| && forall i :: 0 <= i < |word| ==> UpperChar(s[i]) == word[i]
  }

  // The first position from `pos` on whose character does not satisfy `p`.
  function Skip(s: string, pos: nat, p: char -> bool): (q: nat)
    requires pos <= |s|
    ensures pos <= q <= |s|
    decreases |s| - pos
  {
    if pos < |s| && p(s[pos]) then Skip(s, pos + 1, p) else pos
  }

  // ----- numbers

  function ParseI64(s: string): Option<int> {
    var neg := s != "" && s[0] == '-';
    var ds := if s != "" && (s[0] == '-' || s[0] == '+') then s[1..] else s;
    if ds == "" || !AllDigits(ds) then None
    else
      var n: int := if neg then 0 - DigitsValue(ds) else DigitsValue(ds);
      if I64_MIN <= n <= I64_MAX then Some(n) else None
  }

  function NumberValue(lib: Lib, s: string): Value {
    if '.' in s then
      var x := lib.parseF64(s);
      if x.Some? then Sql.OfF64(x.value) else String(s)
    else
      var n := ParseI64(s);
      if n.Some? then Number(Int(n.value)) else String(s)
  }

  // ----- quoted strings

  datatype Quoted = Quoted(buf: string, end: nat)

  function Unescape(c: char): char {
    if c == 'n' then '\n' else if c == 't' then '\t' else c
  }

  // The text from position `i` of a quoted string up to and including the
  // closing quote, behind what was already read.
  function QuotedFrom(s: string, i: nat, buf: string): (q: Quoted)
    requires i <= |s|
    ensures i <= q.end <= |s|
    decreases |s| - i
  {
    if i >= |s| then Quoted(buf, i)
    else if s[i] == '\'' then
      if i + 1 < |s| && s[i + 1] == '\'' then QuotedFrom(s, i + 2, buf + "'") else Quoted(buf, i + 1)
    else if s[i] == '\\' && i + 1 < |s| then QuotedFrom(s, i + 2, buf + [Unescape(s[i + 1])])
    else QuotedFrom(s, i + 1, buf + [s[i]])
  }

  function StringValue(lib: Lib, buf: string): Value {
    var v := lib.parseJson(buf);
    if v.Some? then v.value else String(buf)
  }

  // ----- values, tuples, lists of tuples

  predicate NumberChar(c: char) {
    !StopsNumber(c)
  }

  // Leading white space is trimmed but not counted as used.
  function ParseValue(lib: Lib, s: string): (r: Parsed<Value>)
    ensures r.Ok? ==> 1 <= r.used <= |s| - Skip(s, 0, IsSpace)
  {
    var t := s[Skip(s, 0, IsSpace)..];
    if t == "" then Err(EmptyValue)
    else if (t[0] == 'N' || t[0] == 'n') && StartsWithUpper(t, "NULL") then Ok(Null, 4)
    else if t[0] == '\'' then
      var q := QuotedFrom(t, 1, "");
      Ok(StringValue(lib, q.buf), q.end)
    else if IsDigit(t[0]) || t[0] == '-' || t[0] == '+' then
      var end := Skip(t, 0, NumberChar);
      Ok(NumberValue(lib, t[..end]), end)
    else if (t[0] == 'T' || t[0] == 't') && StartsWithUpper(t, "TRUE") then Ok(Bool(true), 4)
    else if (t[0] == 'F' || t[0] == 'f') && StartsWithUpper(t, "FALSE") then Ok(Bool(false), 5)
    else if t[0] == 'N' && StartsWithUpper(t, "NOW()") then Ok(String(lib.now), 5)
    else Err(UnexpectedChar(t[0]))
  }

  // ----- scanning loops

  // What one round of a scanning loop decides at its position: stop, move on,
  // take an item and move on, or fail.
  datatype Step<+T> = Stop(end: nat) | Move(pos: nat) | Item(x: T, pos: nat) | Fail(error: ParseError)

  type Stepper<!T> = nat -> Step<T>

  // The step moves forward and stays inside the text.
  predicate StepsOn<T>(step: Step<T>, p: nat, limit: nat) {
    match step
    case Stop(end) => p <= end <= limit
    case Move(q) => p < q <= limit
    case Item(_, q) => p < q <= limit
    case Fail(_) => true
  }

  ghost predicate Forward<T>(next: Stepper<T>, limit: nat) {
    forall p: nat :: p <= limit ==> StepsOn(next(p), p, limit)
  }

  // The loop itself: steps from `pos` on, behind the items already found.
  function Collect<T>(next: Stepper<T>, limit: nat, pos: nat, found: seq<T>): (r: Parsed<seq<T>>)
    requires Forward(next, limit) && pos <= limit
    ensures r.Ok? ==> pos <= r.used <= limit
    decreases limit - pos, 1
  {
    Continue(next, limit, pos, next(pos), found)
  }

  // The loop after the step taken at `pos`.
  function Continue<T>(next: Stepper<T>, limit: nat, pos: nat, step: Step<T>, found: seq<T>): (r: Parsed<seq<T>>)
    requires Forward(next, limit) && pos <= limit && StepsOn(step, pos, limit)
    ensures r.Ok? ==> pos <= r.used <= limit
    decreases limit - pos, 0
  {
    match step
    case Stop(end) => Ok(found, end)
    case Move(q) => Collect(next, limit, q, found)
    case Item(x, q) => Collect(next, limit, q, found + [x])
    case Fail(e) => Err(e)
  }

  type ValueParser = string -> Parsed<Value>

  ghost predicate Advances(pv: ValueParser) {
    forall s :: pv(s).Ok? ==> 1 <= pv(s).used <= |s|
  }

  function ValuesOf(lib: Lib): (pv: ValueParser)
    ensures Advances(pv)
  {
    s => ParseValue(lib, s)
  }

  // One round of the tuple loop.
  function TupleStep(pv: ValueParser, s: string, pos: nat): (step: Step<Value>)
    requires Advances(pv) && pos <= |s|
    ensures StepsOn(step, pos, |s|)
  {
    var p := Skip(s, pos, IsBlank);
    if p >= |s| then Fail(UnterminatedTuple)
    else if s[p] == ')' then Stop(p + 1)
    else if s[p] == ',' then Move(p + 1)
    else
      var v := pv(s[p..]);
      if v.Err? then Fail(v.error) else Item(v.value, p + v.used)
  }

  function TupleNext(pv: ValueParser, s: string): (next: Stepper<Value>)
    requires Advances(pv)
    ensures Forward(next, |s|)
  {
    (pos: nat) => if pos <= |s| then TupleStep(pv, s, pos) else Fail(UnterminatedTuple)
  }

  type TupleParser = string -> Parsed<Tuple>

  ghost predicate AdvancesTuples(pt: TupleParser) {
    forall s :: pt(s).Ok? ==> 1 <= pt(s).used <= |s|
  }

  // Parses a tuple whose first character is its opening parenthesis.
  function TuplesOf(pv: ValueParser): (pt: TupleParser)
    requires Advances(pv)
    ensures AdvancesTuples(pt)
  {
    s => if s == "" then Err(UnterminatedTuple) else Collect(TupleNext(pv, s), |s|, 1, [])
  }

  predicate SeparatesTuples(c: char) {
    c == ' ' || c == '\t' || c == '\n' || c == ','
  }

  // One round of the loop over tuples.
  function TuplesStep(pt: TupleParser, s: string, pos: nat): (step: Step<Tuple>)
    requires AdvancesTuples(pt) && pos <= |s|
    ensures StepsOn(step, pos, |s|)
  {
    var p := Skip(s, pos, SeparatesTuples);
    if p >= |s| then Stop(|s|)
    else if s[p] != '(' then Fail(ExpectedParen)
    else
      var t := pt(s[p..]);
      if t.Err? then Fail(t.error) else Item(t.value, p + t.used)
  }

  function TuplesNext(pt: TupleParser, s: string): (next: Stepper<Tuple>)
    requires AdvancesTuples(pt)
    ensures Forward(next, |s|)
  {
    (pos: nat) => if pos <= |s| then TuplesStep(pt, s, pos) else Fail(ExpectedParen)
  }

  // A whole VALUES list.
  function ParseTuples(lib: Lib, s: string): (r: Parsed<seq<Tuple>>)
    ensures r.Ok? ==> r.used <= |s|
  {
    Collect(TuplesNext(TuplesOf(ValuesOf(lib)), s), |s|, 0, [])
  }

  // ----- the parser's loops

  method ScanWhile(s: string, start: nat, p: char -> bool) returns (pos: nat)
    requires start <= |s|
    ensures pos == Skip(s, start, p)
  {
    pos := start;
    while pos < |s| && p(s[pos])
      invariant start <= pos <= |s|
      invariant Skip(s, pos, p) == Skip(s, start, p)
    {
      pos := pos + 1;
    }
  }

  method ScanQuoted(s: string) returns (q: Quoted)
    requires s != "" && s[0] == '\''
    ensures q == QuotedFrom(s, 1, "")
  {
    var i, buf := 1, "";
    while i < |s|
      invariant 1 <= i <= |s|
      invariant QuotedFrom(s, 1, "") == QuotedFrom(s, i, buf)
    {
      if s[i] == '\'' {
        if i + 1 < |s| && s[i + 1] == '\'' {
          buf, i := buf + "'", i + 2;
        } else {
          return Quoted(buf, i + 1);
        }
      } else if s[i] == '\\' && i + 1 < |s| {
        buf, i := buf + [Unescape(s[i + 1])], i + 2;
      } else {
        buf, i := buf + [s[i]], i + 1;
      }
    }
    q := Quoted(buf, i);
  }

  method ScanValue(lib: Lib, s: string) returns (r: Parsed<Value>)
    ensures r == ParseValue(lib, s)
  {
    var start := ScanWhile(s, 0, IsSpace);
    var t := s[start..];
    if t == "" { return Err(EmptyValue); }
    if (t[0] == 'N' || t[0] == 'n') && StartsWithUpper(t, "NULL") { return Ok(Null, 4); }
    if t[0] == '\'' {
      var q := ScanQuoted(t);
      return Ok(StringValue(lib, q.buf), q.end);
    }
    if IsDigit(t[0]) || t[0] == '-' || t[0] == '+' {
      var end := ScanWhile(t, 0, NumberChar);
      return Ok(NumberValue(lib, t[..end]), end);
    }
    if (t[0] == 'T' || t[0] == 't') && StartsWithUpper(t, "TRUE") { return Ok(Bool(true), 4); }
    if (t[0] == 'F' || t[0] == 'f') && StartsWithUpper(t, "FALSE") { return Ok(Bool(false), 5); }
    if t[0] == 'N' && StartsWithUpper(t, "NOW()") { return Ok(String(lib.now), 5); }
    return Err(UnexpectedChar(t[0]));
  }

  // The loops below take the value parser as an argument; they are right for
  // every parser that makes progress.
  method ScanTuple(pv: ValueParser, s: string) returns (r: Parsed<Tuple>)
    requires Advances(pv) && s != "" && s[0] == '('
    ensures r == TuplesOf(pv)(s)
  {
    var values, pos := [], 1;
    ghost var next := TupleNext(pv, s);
    while true
      invariant 1 <= pos <= |s|
      invariant Collect(next, |s|, 1, []) == Collect(next, |s|, pos, values)
      decreases |s| - pos
    {
      pos := ScanWhile(s, pos, IsBlank);
      if pos >= |s| { return Err(UnterminatedTuple); }
      if s[pos] == ')' { return Ok(values, pos + 1); }
      if s[pos] == ',' {
        pos := pos + 1;
        continue;
      }
      var v := pv(s[pos..]);
      if v.Err? { return Err(v.error); }
      values := values + [v.value];
      pos := pos + v.used;
    }
  }

  // One round: skip separators, then read a tuple.
  method ScanStep(pv: ValueParser, s: string, pos: nat) returns (step: Step<Tuple>)
    requires Advances(pv) && pos <= |s|
    ensures step == TuplesStep(TuplesOf(pv), s, pos)
  {
    var p := ScanWhile(s, pos, SeparatesTuples);
    if p >= |s| { return Stop(|s|); }
    if s[p] != '(' { return Fail(ExpectedParen); }
    var tuple := ScanTuple(pv, s[p..]);
    if tuple.Err? { return Fail(tuple.error); }
    step := Item(tuple.value, p + tuple.used);
  }

  method ScanTuples(pv: ValueParser, s: string) returns (r: Parsed<seq<Tuple>>)
    requires Advances(pv)
    ensures r == Collect(TuplesNext(TuplesOf(pv), s), |s|, 0, [])
  {
    var tuples: seq<Tuple>, pos := [], 0;
    ghost var pt := TuplesOf(pv);
    while pos < |s|
      invariant 0 <= pos <= |s|
      invariant Collect(TuplesNext(pt, s), |s|, 0, []) == Collect(TuplesNext(pt, s), |s|, pos, tuples)
    {
      CollectStep(pt, s, pos, tuples);
      var step := ScanStep(pv, s, pos);
      match step
      case Stop(end) => return Ok(tuples, end);
      case Fail(e) => return Err(e);
      case Move(q) => pos := q;
      case Item(tuple, q) =>
        tuples := tuples + [tuple];
        pos := q;
    }
    CollectStep(pt, s, |s|, tuples);
    r := Ok(tuples, |s|);
  }

  lemma CollectStep(pt: TupleParser, s: string, pos: nat, tuples: seq<Tuple>)
    requires AdvancesTuples(pt) && pos <= |s|
    ensures Collect(TuplesNext(pt, s), |s|, pos, tuples) == Continue(TuplesNext(pt, s), |s|, pos, TuplesStep(pt, s, pos), tuples)
  {
    assert TuplesNext(pt, s)(pos) == TuplesStep(pt, s, pos);
  }

  method ParseValueTuples(lib: Lib, s: string) returns (r: Parsed<seq<Tuple>>)
    ensures r == ParseTuples(lib, s)
  {
    r := ScanTuples(ValuesOf(lib), s);
  }
}
