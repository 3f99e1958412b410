// What comparing JSON values means: when two are equal under `=` and which of
// two comes first under `<`, BETWEEN and ORDER BY.
module ValueOrder {
  import opened Common
  import opened Json

  // ----- numbers and text

  function NumReal(n: Num): real {
    match n
    case Int(i) => i as real
    case Float(Fin(r)) => r
    case Float(NegZero) => 0.0
  }

  // `s` is a proper prefix of `t`, or has the smaller character where they
  // first differ.
  ghost predicate TextBelow(s: string, t: string) {
    exists k :: 0 <= k <= |s| && k < |t| && s[..k] == t[..k] && (k < |s| ==> s[k] < t[k])
  }

  lemma TextBelowBy(s: string, t: string, k: nat)
    requires k <= |s| && k < |t| && s[..k] == t[..k] && (k < |s| ==> s[k] < t[k])
    ensures TextBelow(s, t)
  {
  }

  // Strings that share their first character compare as their rests do.
  lemma TextBelowTail(s: string, t: string)
    requires s != "" && t != "" && s[0] == t[0]
    ensures TextBelow(s, t) <==> TextBelow(s[1..], t[1..])
  {
    if TextBelow(s, t) {
      var k :| 0 <= k <= |s| && k < |t| && s[..k] == t[..k] && (k < |s| ==> s[k] < t[k]);
      SameTails(s, t, k);
      TextBelowBy(s[1..], t[1..], k - 1);
    }
    if TextBelow(s[1..], t[1..]) {
      var a, b := s[1..], t[1..];
      var k :| 0 <= k <= |a| && k < |b| && a[..k] == b[..k] && (k < |a| ==> a[k] < b[k]);
      SameHeads(s, t, k);
      TextBelowBy(s, t, k + 1);
    }
  }

  lemma SameTails(s: string, t: string, k: nat)
    requires 0 < k <= |s| && k <= |t| && s[..k] == t[..k]
    ensures s[1..][..k - 1] == t[1..][..k - 1]
  {
    assert s[1..][..k - 1] == s[..k][1..] && t[1..][..k - 1] == t[..k][1..];
  }

  lemma SameHeads(s: string, t: string, k: nat)
    requires s != "" && t != "" && s[0] == t[0] && k < |s| && k < |t| && s[1..][..k] == t[1..][..k]
    ensures s[..k + 1] == t[..k + 1]
  {
    assert s[..k + 1] == [s[0]] + s[1..][..k] && t[..k + 1] == [t[0]] + t[1..][..k];
  }

  lemma TextBelowHead(s: string, t: string)
    requires s != "" && t != "" && s[0] != t[0]
    ensures TextBelow(s, t) <==> s[0] < t[0]
  {
    if s[0] < t[0] { TextBelowBy(s, t, 0); }
    if TextBelow(s, t) {
      var k :| 0 <= k <= |s| && k < |t| && s[..k] == t[..k] && (k < |s| ==> s[k] < t[k]);
      if k > 0 { assert s[..k][0] == t[..k][0]; }
    }
  }

  lemma {:induction false} CmpTextExact(s: string, t: string)
    ensures CmpText(s, t) == Less <==> TextBelow(s, t)
    ensures CmpText(s, t) == Greater <==> TextBelow(t, s)
    ensures CmpText(s, t) == Equal <==> s == t
  {
    if s == "" || t == "" {
      if t != "" { TextBelowBy(s, t, 0); }
      if s != "" { TextBelowBy(t, s, 0); }
    } else if s[0] == t[0] {
      CmpTextExact(s[1..], t[1..]);
      TextBelowTail(s, t);
      TextBelowTail(t, s);
      assert s == [s[0]] + s[1..] && t == [t[0]] + t[1..];
    } else {
      TextBelowHead(s, t);
      TextBelowHead(t, s);
    }
  }

  // ----- the order of values

  // Numbers by size, strings by their characters, false before true, lists and
  // objects by their printed text. Between types: null, strings, numbers,
  // lists, booleans, objects.
  ghost predicate Below(h: Host, a: Value, b: Value) {
    match (a, b)
    case (Number(m), Number(n)) => NumReal(m) < NumReal(n)
    case (String(s), String(t)) => TextBelow(s, t)
    case (Bool(p), Bool(q)) => !p && q
    case (Array(_), Array(_)) => TextBelow(Text(h, a), Text(h, b))
    case (Object(_), Object(_)) => TextBelow(Text(h, a), Text(h, b))
    case (Null, _) => b != Null
    case (String(_), _) => b.Number? || b.Array? || b.Bool? || b.Object?
    case (Number(_), _) => b.Array? || b.Bool? || b.Object?
    case (Array(_), _) => b.Bool? || b.Object?
    case (Bool(_), _) => b.Object?
    case (Object(_), _) => false
  }

  // The comparison is that order, for every pair of values.
  lemma CmpJsonExact(h: Host, a: Value, b: Value)
    requires h.Lawful()
    ensures CmpJson(h, a, b) == Less <==> Below(h, a, b)
    ensures CmpJson(h, a, b) == Greater <==> Below(h, b, a)
  {
    if Rank(a) != Rank(b) {
      CmpByRank(h, a, b);
    } else if a.String? {
      CmpTextExact(a.s, b.s);
    } else if a.Array? || a.Object? {
      CmpTextExact(Text(h, a), Text(h, b));
    }
  }

  // ----- equality

  // A string is read as this number.
  predicate Reads(h: Host, s: string, r: real) {
    h.parseF64(s).Some? && match h.parseF64(s).value
    case Fin(x) => x == r
    case NegZero => r == 0.0
    case _ => false
  }

  ghost predicate SameScalar(h: Host, a: Value, b: Value) {
    match (a, b)
    case (Number(m), Number(n)) => NumReal(m) == NumReal(n)
    case (String(s), Number(n)) => Reads(h, s, NumReal(n))
    case (Number(m), String(t)) => Reads(h, t, NumReal(m))
    case (String(s), String(t)) => s == t
    case (Bool(p), Bool(q)) => p == q
    case (Null, Null) => true
    case (_, _) => false
  }

  // Scalars are equal under `=` exactly when they are the same number, also
  // one read from a string, or the same string, boolean or null.
  lemma ScalarEqExact(h: Host, a: Value, b: Value)
    requires h.Lawful() && Scalar(a) && Scalar(b)
    ensures JsonEq(h, a, b) <==> SameScalar(h, a, b)
  {
    TextFirst(h, a);
    TextFirst(h, b);
    if a.String? && b.String? && Text(h, a) == Text(h, b) { SameTextStrings(a.s, b.s); }
  }
}
