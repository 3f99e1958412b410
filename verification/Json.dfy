// The JSON values the executor computes with: equality, ordering and the
// normalised text that keys the hash join.
module Json {
  import opened Common

  // A 64-bit float up to rounding. Both zeros are kept: they compare equal
  // and print differently.
  datatype F64 = Fin(r: real) | NegZero | PosInf | NegInf | NaN

  // JSON has no infinities and no NaN.
  type Finite = x: F64 | x.Fin? || x.NegZero? witness NegZero

  datatype Num = Int(i: int) | Float(x: Finite)

  datatype Field = Field(key: string, value: Value)

  // Objects list their fields in key order, as the underlying tree map does.
  datatype Value =
    | Null
    | Bool(b: bool)
    | Number(n: Num)
    | String(s: string)
    | Array(items: seq<Value>)
    | Object(fields: seq<Field>)

  // Library code the executor calls. Every result holds for all
  // implementations, or for all that satisfy `Lawful`.
  datatype Host = Host(
    parseF64: string -> Option<F64>,
    keyText: F64 -> string,
    numText: Num -> string,
    arith: (Arith, F64, F64) -> F64,
    like: (string, string) -> bool,
    scalar: (string, seq<Value>) -> Value)
  {
    // What the proofs need from the library: a printed number starts with a
    // digit or a minus sign, and the fixed-width format shows the sign of zero.
    ghost predicate Lawful() {
      && (forall n :: |numText(n)| > 0 && (numText(n)[0] == '-' || '0' <= numText(n)[0] <= '9'))
      && keyText(NegZero) != keyText(Fin(0.0))
    }
  }

  datatype Arith = Add | Sub | Mul | Div

  // ----- numbers

  predicate F64Eq(a: F64, b: F64) {
    match (a, b)
    case (NaN, _) => false
    case (_, NaN) => false
    case (NegZero, Fin(r)) => r == 0.0
    case (Fin(r), NegZero) => r == 0.0
    case (_, _) => a == b
  }

  function AsF64(n: Num): Finite {
    match n
    case Int(i) => Fin(i as real)
    case Float(x) => x
  }

  function RealOf(x: Finite): real {
    if x.Fin? then x.r else 0.0
  }

  // ----- text

  function Hex(d: int): char
    requires 0 <= d < 16
  {
    "0123456789abcdef"[d]
  }

  function EscapeChar(c: char): string {
    if c == '"' then "\\\""
    else if c == '\\' then "\\\\"
    else if c == '\n' then "\\n"
    else if c == '\r' then "\\r"
    else if c == '\t' then "\\t"
    else if c as int == 8 then "\\b"
    else if c as int == 12 then "\\f"
    else if c as int < 32 then "\\u00" + [Hex(c as int / 16), Hex(c as int % 16)]
    else [c]
  }

  function Escape(s: string): string {
    if s == "" then "" else EscapeChar(s[0]) + Escape(s[1..])
  }

  function Quote(s: string): string {
    "\"" + Escape(s) + "\""
  }

  function Text(h: Host, v: Value): string
    decreases v
  {
    match v
    case Null => "null"
    case Bool(b) => if b then "true" else "false"
    case Number(n) => h.numText(n)
    case String(s) => Quote(s)
    case Array(items) => "[" + ItemsText(h, items) + "]"
    case Object(fields) => "{" + FieldsText(h, fields) + "}"
  }

  function ItemsText(h: Host, items: seq<Value>): string
    decreases items
  {
    if items == [] then ""
    else Text(h, items[0]) + (if |items| == 1 then "" else "," + ItemsText(h, items[1..]))
  }

  function FieldsText(h: Host, fields: seq<Field>): string
    decreases fields
  {
    if fields == [] then ""
    else
      Quote(fields[0].key) + ":" + Text(h, fields[0].value)
      + (if |fields| == 1 then "" else "," + FieldsText(h, fields[1..]))
  }

  lemma EscapeCharPrefixFree(c: char, x: string, d: char, y: string)
    requires EscapeChar(c) + x == EscapeChar(d) + y
    ensures c == d && x == y
  {
    var p, q := EscapeChar(c), EscapeChar(d);
    assert (p + x)[0] == p[0] && (q + y)[0] == q[0];
    if |p| >= 2 && |q| >= 2 {
      assert (p + x)[1] == p[1] && (q + y)[1] == q[1];
      if p[1] == 'u' && q[1] == 'u' {
        assert (p + x)[4] == p[4] && (q + y)[4] == q[4];
        assert (p + x)[5] == p[5] && (q + y)[5] == q[5];
        HexInjective(c as int / 16, d as int / 16);
        HexInjective(c as int % 16, d as int % 16);
      }
    }
    assert c == d;
    assert x == (p + x)[|p|..] && y == (q + y)[|q|..];
  }

  lemma HexInjective(d: int, e: int)
    requires 0 <= d < 16 && 0 <= e < 16
    ensures Hex(d) == Hex(e) ==> d == e
  {
    var t := "0123456789abcdef";
    assert forall i, j :: 0 <= i < j < 16 ==> t[i] != t[j];
  }

  // Escaping loses nothing, so two strings that print alike are equal.
  lemma {:induction false} EscapeInjective(s: string, t: string)
    requires Escape(s) == Escape(t)
    ensures s == t
  {
    if s == "" || t == "" {
    } else {
      EscapeCharPrefixFree(s[0], Escape(s[1..]), t[0], Escape(t[1..]));
      EscapeInjective(s[1..], t[1..]);
    }
  }

  // ----- equality

  // serde's structural equality: integers and floats never mix, floats compare
  // as floats.
  predicate ValueEq(a: Value, b: Value)
    decreases a
  {
    match (a, b)
    case (Number(Float(x)), Number(Float(y))) => F64Eq(x, y)
    case (Array(s), Array(t)) =>
      |s| == |t| && forall i :: 0 <= i < |s| ==> ValueEq(s[i], t[i])
    case (Object(s), Object(t)) =>
      |s| == |t| && forall i :: 0 <= i < |s| ==> s[i].key == t[i].key && ValueEq(s[i].value, t[i].value)
    case (_, _) => a == b
  }

  // The equality behind `=`, `<>`, IN and CASE.
  predicate JsonEq(h: Host, a: Value, b: Value) {
    match (a, b)
    case (Number(m), Number(n)) => F64Eq(AsF64(m), AsF64(n))
    case (String(s), Number(n)) => h.parseF64(s).Some? && F64Eq(h.parseF64(s).value, AsF64(n))
    case (Number(m), String(t)) => h.parseF64(t).Some? && F64Eq(AsF64(m), h.parseF64(t).value)
    case (_, _) => ValueEq(a, b) || Text(h, a) == Text(h, b)
  }

  // The normalised text that keys the hash join and GROUP BY.
  function SortKey(h: Host, v: Value): string {
    match v
    case Number(n) => h.keyText(AsF64(n))
    case String(s) =>
      var p := h.parseF64(s);
      if p.Some? then h.keyText(p.value) else s
    case Bool(b) => if b then "true" else "false"
    case Null => ""
    case _ => Text(h, v)
  }

  // A value the comparison reads as negative zero.
  predicate ReadsNegZero(h: Host, v: Value) {
    match v
    case Number(n) => AsF64(n) == NegZero
    case String(s) => h.parseF64(s) == Some(NegZero)
    case _ => false
  }

  // A negative zero anywhere inside the value.
  predicate HasNegZero(h: Host, v: Value)
    decreases v
  {
    match v
    case Array(items) => exists i :: 0 <= i < |items| && HasNegZero(h, items[i])
    case Object(fields) => exists i :: 0 <= i < |fields| && HasNegZero(h, fields[i].value)
    case _ => ReadsNegZero(h, v)
  }

  predicate Scalar(v: Value) {
    !v.Array? && !v.Object?
  }

  // Structurally equal values without negative zeros are identical.
  lemma {:induction false} ValueEqIsIdentity(h: Host, a: Value, b: Value)
    requires ValueEq(a, b) && !HasNegZero(h, a) && !HasNegZero(h, b)
    ensures a == b
    decreases a
  {
    match (a, b)
    case (Array(s), Array(t)) =>
      forall i | 0 <= i < |s| ensures s[i] == t[i] {
        ValueEqIsIdentity(h, s[i], t[i]);
      }
      assert s == t;
    case (Object(s), Object(t)) =>
      forall i | 0 <= i < |s| ensures s[i] == t[i] {
        ValueEqIsIdentity(h, s[i].value, t[i].value);
      }
      assert s == t;
    case (_, _) =>
  }

  lemma TextFirst(h: Host, v: Value)
    requires h.Lawful()
    ensures var t := Text(h, v);
      && |t| > 0
      && match v
         case Null => t[0] == 'n'
         case Bool(b) => t[0] == 't' || t[0] == 'f'
         case Number(_) => t[0] == '-' || '0' <= t[0] <= '9'
         case String(_) => t[0] == '"'
         case Array(_) => t[0] == '['
         case Object(_) => t[0] == '{'
  {
  }

  lemma SameTextStrings(s: string, t: string)
    requires Quote(s) == Quote(t)
    ensures s == t
  {
    var q, r := Quote(s), Quote(t);
    assert q[1..|q| - 1] == Escape(s) && r[1..|r| - 1] == Escape(t);
    EscapeInjective(s, t);
  }

  // Equal values get the same hash-join key, whatever mix of numbers and
  // numeric strings they are, as long as no negative zero is involved.
  lemma EqualValuesShareKey(h: Host, a: Value, b: Value)
    requires h.Lawful() && JsonEq(h, a, b)
    requires !HasNegZero(h, a) && !HasNegZero(h, b)
    ensures SortKey(h, a) == SortKey(h, b)
  {
    TextFirst(h, a);
    TextFirst(h, b);
    if ValueEq(a, b) {
      ValueEqIsIdentity(h, a, b);
    } else if a.String? && b.String? {
      SameTextStrings(a.s, b.s);
    }
  }

  // For scalars the condition is exact: equal values have different keys
  // precisely when one of them, and not the other, reads as negative zero.
  lemma ScalarKeyExact(h: Host, a: Value, b: Value)
    requires h.Lawful() && JsonEq(h, a, b) && Scalar(a) && Scalar(b)
    ensures SortKey(h, a) == SortKey(h, b) <==> (ReadsNegZero(h, a) <==> ReadsNegZero(h, b))
  {
    TextFirst(h, a);
    TextFirst(h, b);
    if a.String? && b.String? && !ValueEq(a, b) {
      SameTextStrings(a.s, b.s);
    }
  }

  // ----- ordering

  function CmpText(s: string, t: string): Ordering {
    if s == "" && t == "" then Equal
    else if s == "" then Less
    else if t == "" then Greater
    else if s[0] < t[0] then Less
    else if t[0] < s[0] then Greater
    else CmpText(s[1..], t[1..])
  }

  function CmpReal(x: real, y: real): Ordering {
    if x < y then Less else if y < x then Greater else Equal
  }

  // The order behind <, BETWEEN and ORDER BY. Values of different types are
  // compared by their printed text.
  function CmpJson(h: Host, a: Value, b: Value): Ordering {
    match (a, b)
    case (Number(m), Number(n)) => CmpReal(RealOf(AsF64(m)), RealOf(AsF64(n)))
    case (String(s), String(t)) => CmpText(s, t)
    case (Bool(p), Bool(q)) => if p == q then Equal else if q then Less else Greater
    case (Null, Null) => Equal
    case (Null, _) => Less
    case (_, Null) => Greater
    case (_, _) => CmpText(Text(h, a), Text(h, b))
  }

  lemma {:induction false} CmpTextFlip(s: string, t: string)
    ensures CmpText(t, s) == Flip(CmpText(s, t))
  {
    if s != "" && t != "" && s[0] == t[0] {
      CmpTextFlip(s[1..], t[1..]);
    }
  }

  lemma {:induction false} CmpTextTransitive(s: string, t: string, u: string)
    requires CmpText(s, t) != Greater && CmpText(t, u) != Greater
    ensures CmpText(s, u) != Greater
  {
    if s != "" && t != "" && u != "" && s[0] == t[0] == u[0] {
      CmpTextTransitive(s[1..], t[1..], u[1..]);
    }
  }

  // How the types rank against each other: by the first character they print.
  function Rank(v: Value): nat {
    match v
    case Null => 0
    case String(_) => 1
    case Number(_) => 2
    case Array(_) => 3
    case Bool(_) => 4
    case Object(_) => 5
  }

  lemma CmpByRank(h: Host, a: Value, b: Value)
    requires h.Lawful() && Rank(a) != Rank(b)
    ensures CmpJson(h, a, b) == if Rank(a) < Rank(b) then Less else Greater
  {
    TextFirst(h, a);
    TextFirst(h, b);
  }

  lemma CmpJsonFlip(h: Host, a: Value, b: Value)
    ensures CmpJson(h, b, a) == Flip(CmpJson(h, a, b))
  {
    CmpTextFlip(Text(h, a), Text(h, b));
    if a.String? && b.String? {
      CmpTextFlip(a.s, b.s);
    }
  }

  // The mixed-type order is a total preorder, so it is safe to sort with.
  lemma CmpJsonTransitive(h: Host, a: Value, b: Value, c: Value)
    requires h.Lawful()
    requires CmpJson(h, a, b) != Greater && CmpJson(h, b, c) != Greater
    ensures CmpJson(h, a, c) != Greater
  {
    if Rank(a) != Rank(b) { CmpByRank(h, a, b); }
    if Rank(b) != Rank(c) { CmpByRank(h, b, c); }
    if Rank(a) != Rank(c) { CmpByRank(h, a, c); }
    if Rank(a) == Rank(b) == Rank(c) {
      if a.String? {
        CmpTextTransitive(a.s, b.s, c.s);
      } else if a.Array? || a.Object? {
        CmpTextTransitive(Text(h, a), Text(h, b), Text(h, c));
      }
    }
  }
}
