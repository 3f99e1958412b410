// From the text of a VALUES list to its bytes: what the parser makes of strings
// that are not ASCII, and of strings that are JSON text.
module InsertText {
  import opened Common
  import opened Json
  import opened InsertValues
  import opened InsertRoundTrip
  import opened Text

  // A value with the bytes of its text in place of the text.
  function Encoded(v: Value): Value {
    match v
    case String(s) => String(Utf8(s))
    case _ => v
  }

  function EncodedTuple(vs: Tuple): Tuple {
    Map(vs, Encoded)
  }

  // A string that is ASCII and no JSON text.
  predicate PlainString(lib: Lib, s: string) {
    AllAscii(s) && lib.parseJson(s).None?
  }

  predicate PlainValue(lib: Lib, v: Value) {
    v.String? ==> PlainString(lib, v.s)
  }

  // No JSON text for a string is the bytes of that string.
  lemma NoQuine(lib: Lib, s: string)
    requires lib.Lawful()
    ensures lib.parseJson(Utf8(s)) != Some(String(s))
  {
    Utf8Spreads(s);
    NoneAreAscii(s);
    Utf8Exact(s);
  }

  lemma ReadExact(lib: Lib, v: Value)
    requires lib.Lawful()
    ensures ReadValue(lib, Encoded(v)) == v <==> PlainValue(lib, v)
  {
    if v.String? {
      NoQuine(lib, v.s);
      Utf8Exact(v.s);
    }
  }

  // ----- the bytes of what is printed

  predicate Plain(e: string) {
    forall i :: 0 <= i < |e| ==> e[i] != '\'' && e[i] != '\\'
  }

  lemma {:induction false} EscapePlain(e: string, t: string)
    requires Plain(e)
    ensures EscapeQuoted(e + t) == e + EscapeQuoted(t)
  {
    if e == "" {
      assert e + t == t;
    } else {
      EscapePlain(e[1..], t);
      assert (e + t)[1..] == e[1..] + t;
      Regroup([e[0]], e[1..], EscapeQuoted(t));
      assert [e[0]] + e[1..] == e;
    }
  }

  lemma EscapeHead(c: char, t: string)
    ensures EscapeQuoted(Encode(c) + t) == Utf8(Escaped(c)) + EscapeQuoted(t)
  {
    if c == '\'' || c == '\\' {
      Utf8Exact(Escaped(c));
      assert ([c] + t)[1..] == t;
    } else {
      assert [c][1..] == "";
      assert Utf8([c]) == Encode(c) + "" == Encode(c);
      EscapePlain(Encode(c), t);
    }
  }

  lemma {:induction false} EscapeUtf8(s: string)
    ensures Utf8(EscapeQuoted(s)) == EscapeQuoted(Utf8(s))
  {
    if s != "" {
      EscapeUtf8(s[1..]);
      EscapeHead(s[0], Utf8(s[1..]));
      Utf8Append(Escaped(s[0]), EscapeQuoted(s[1..]));
    }
  }

  lemma QuotedUtf8(s: string)
    ensures Utf8("'" + s + "'") == "'" + Utf8(s) + "'"
  {
    Utf8Exact("'");
    Utf8Append("'" + s, "'");
    Utf8Append("'", s);
  }

  lemma PrintValueUtf8(v: Value)
    ensures Utf8(PrintValue(v)) == PrintValue(Encoded(v))
  {
    match v
    case String(s) =>
      EscapeUtf8(s);
      QuotedUtf8(EscapeQuoted(s));
    case Number(Int(i)) =>
      PrintIntChars(i);
      Utf8Exact(PrintValue(v));
    case _ => Utf8Exact(PrintValue(v));
  }

  // What a printer does to each element it does to a list.
  lemma {:induction false} PrintMoreUtf8<T>(pr: T -> string, f: T -> T, xs: seq<T>)
    requires forall i :: 0 <= i < |xs| ==> Utf8(pr(xs[i])) == pr(f(xs[i]))
    ensures Utf8(PrintMore(pr, xs)) == PrintMore(pr, Map(xs, f))
  {
    if xs != [] {
      PrintMoreUtf8(pr, f, xs[1..]);
      assert Map(xs, f)[1..] == Map(xs[1..], f);
      Utf8Exact(", ");
      Utf8Append(", " + pr(xs[0]), PrintMore(pr, xs[1..]));
      Utf8Append(", ", pr(xs[0]));
    }
  }

  lemma PrintListUtf8<T>(pr: T -> string, f: T -> T, xs: seq<T>)
    requires forall i :: 0 <= i < |xs| ==> Utf8(pr(xs[i])) == pr(f(xs[i]))
    ensures Utf8(PrintList(pr, xs)) == PrintList(pr, Map(xs, f))
  {
    if xs != [] {
      PrintMoreUtf8(pr, f, xs[1..]);
      assert Map(xs, f)[1..] == Map(xs[1..], f);
      Utf8Append(pr(xs[0]), PrintMore(pr, xs[1..]));
    }
  }

  lemma PrintTupleUtf8(vs: Tuple)
    ensures Utf8(TuplePrinter(PrintValue)(vs)) == TuplePrinter(PrintValue)(EncodedTuple(vs))
  {
    forall i | 0 <= i < |vs| ensures Utf8(PrintValue(vs[i])) == PrintValue(Encoded(vs[i])) {
      PrintValueUtf8(vs[i]);
    }
    PrintListUtf8(PrintValue, Encoded, vs);
    Utf8Exact("(");
    Utf8Exact(")");
    Utf8Append("(" + PrintList(PrintValue, vs), ")");
    Utf8Append("(", PrintList(PrintValue, vs));
  }

  lemma PrintTuplesUtf8(ts: seq<Tuple>)
    ensures Utf8(PrintTuples(ts)) == PrintTuples(Map(ts, EncodedTuple))
  {
    forall i | 0 <= i < |ts| ensures Utf8(TuplePrinter(PrintValue)(ts[i])) == TuplePrinter(PrintValue)(EncodedTuple(ts[i])) {
      PrintTupleUtf8(ts[i]);
    }
    PrintListUtf8(TuplePrinter(PrintValue), EncodedTuple, ts);
  }

  // What is read for the bytes of a tuple.
  function ReadEncodedTuple(lib: Lib, vs: Tuple): (ys: Tuple)
    ensures |ys| == |vs| && forall j :: 0 <= j < |vs| ==> ys[j] == ReadValue(lib, Encoded(vs[j]))
  {
    ReadTuple(lib)(EncodedTuple(vs))
  }

  function ReadEncoded(lib: Lib): Tuple -> Tuple {
    vs => ReadEncodedTuple(lib, vs)
  }

  lemma ReadTupleExact(lib: Lib, vs: Tuple)
    requires lib.Lawful()
    ensures ReadEncodedTuple(lib, vs) == vs <==> forall j :: 0 <= j < |vs| ==> PlainValue(lib, vs[j])
  {
    forall j | 0 <= j < |vs| ensures ReadEncodedTuple(lib, vs)[j] == vs[j] <==> PlainValue(lib, vs[j]) {
      ReadExact(lib, vs[j]);
    }
  }

  lemma ReadTuplesExact(lib: Lib, ts: seq<Tuple>)
    requires lib.Lawful()
    ensures Map(ts, ReadEncoded(lib)) == ts <==> forall i, j :: 0 <= i < |ts| && 0 <= j < |ts[i]| ==> PlainValue(lib, ts[i][j])
  {
    forall i | 0 <= i < |ts| ensures Map(ts, ReadEncoded(lib))[i] == ts[i] <==> forall j :: 0 <= j < |ts[i]| ==> PlainValue(lib, ts[i][j]) {
      ReadTupleExact(lib, ts[i]);
    }
  }

  lemma EncodedPrintable(v: Value)
    ensures Printable(Encoded(v)) <==> Printable(v)
  {
  }

  // The bytes of a printed value are used up, and give the value back exactly
  // when it is no string, or one that is ASCII and no JSON text.
  lemma ValueRoundTrips(lib: Lib, v: Value, rest: string)
    requires lib.Lawful() && Printable(v) && EndsValue(rest)
    ensures var text := Utf8(PrintValue(v));
      && ParseValue(lib, text + rest) == Ok(ReadValue(lib, Encoded(v)), |text|)
      && (ParseValue(lib, text + rest) == Ok(v, |text|) <==> PlainValue(lib, v))
  {
    PrintValueUtf8(v);
    EncodedPrintable(v);
    ValueRoundTrip(lib, Encoded(v), rest);
    ReadExact(lib, v);
  }

  lemma EncodedTuplePrintable(vs: Tuple)
    requires AllPrintable(vs)
    ensures AllPrintable(EncodedTuple(vs))
  {
    forall j | 0 <= j < |vs| ensures Printable(EncodedTuple(vs)[j]) {
      EncodedPrintable(vs[j]);
    }
  }

  lemma ReadAfterEncoding(lib: Lib, ts: seq<Tuple>)
    ensures Map(Map(ts, EncodedTuple), ReadTuple(lib)) == Map(ts, ReadEncoded(lib))
  {
  }

  lemma EncodedBytes(lib: Lib, ts: seq<Tuple>)
    requires forall i :: 0 <= i < |ts| ==> AllPrintable(ts[i])
    ensures ParseTuples(lib, Utf8(PrintTuples(ts))) == Ok(Map(ts, ReadEncoded(lib)), |Utf8(PrintTuples(ts))|)
  {
    var es := Map(ts, EncodedTuple);
    PrintTuplesUtf8(ts);
    forall i | 0 <= i < |es| ensures AllPrintable(es[i]) {
      EncodedTuplePrintable(ts[i]);
    }
    BytesRoundTrip(lib, es);
    ReadAfterEncoding(lib, ts);
  }

  // Printing any list of tuples of NULLs, booleans, integers and strings and
  // parsing its bytes consumes them all and returns the tuples with each string
  // as its bytes are read: the same tuples exactly when every string is ASCII
  // and no JSON text.
  lemma InsertRoundTrips(lib: Lib, ts: seq<Tuple>)
    requires lib.Lawful() && forall i :: 0 <= i < |ts| ==> AllPrintable(ts[i])
    ensures var text := Utf8(PrintTuples(ts));
      && ParseTuples(lib, text) == Ok(Map(ts, ReadEncoded(lib)), |text|)
      && (ParseTuples(lib, text) == Ok(ts, |text|) <==> forall i, j :: 0 <= i < |ts| && 0 <= j < |ts[i]| ==> PlainValue(lib, ts[i][j]))
  {
    EncodedBytes(lib, ts);
    ReadTuplesExact(lib, ts);
  }
}
