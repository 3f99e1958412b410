// SQL expressions: evaluation over a row, the columns the planner collects
// from them, and the decomposition of a WHERE clause.
module Sql {
  import opened Common
  import opened Json

  type Row = map<string, Value>

  datatype UnaryOp = Not | Minus | OtherUnary

  datatype BinaryOp =
    | Eq | NotEq | Lt | LtEq | Gt | GtEq
    | And | Or
    | Calc(op: Arith)
    | StringConcat
    | OtherBinary

  // `Compound` is a dotted reference with its last part split off. `Lit` holds
  // the literal's JSON value. `Other` is any form the evaluator does not know.
  datatype Expr =
    | Ident(name: string)
    | Compound(qualifier: seq<string>, col: string)
    | Lit(v: Value)
    | Unary(uop: UnaryOp, e: Expr)
    | Binary(op: BinaryOp, l: Expr, r: Expr)
    | Like(e: Expr, pattern: Expr, negated: bool)
    | IsNull(e: Expr)
    | IsNotNull(e: Expr)
    | InList(e: Expr, list: seq<Expr>, negated: bool)
    | Between(e: Expr, lo: Expr, hi: Expr, negated: bool)
    | Nested(e: Expr)
    | Func(fname: string, args: seq<Expr>)
    | Case(operand: Option<Expr>, conds: seq<Expr>, results: seq<Expr>, els: Option<Expr>)
    | Other

  // ----- evaluation

  predicate AsBool(v: Value) {
    match v
    case Bool(b) => b
    case Null => false
    case _ => true
  }

  function AsNumber(h: Host, v: Value): Option<F64> {
    match v
    case Number(n) => Some(AsF64(n))
    case String(s) => h.parseF64(s)
    case _ => None
  }

  // Non-finite results are not JSON numbers and become NULL.
  function OfF64(x: F64): Value {
    if x.Fin? || x.NegZero? then Number(Float(x)) else Null
  }

  function Negate(x: F64): F64 {
    match x
    case Fin(r) => if r == 0.0 then NegZero else Fin(-r)
    case NegZero => Fin(0.0)
    case PosInf => NegInf
    case NegInf => PosInf
    case NaN => NaN
  }

  function NumericOp(h: Host, op: Arith, a: Value, b: Value): Value {
    var x, y := AsNumber(h, a), AsNumber(h, b);
    if x.None? || y.None? then Null
    else
      var res := if op == Div && F64Eq(y.value, Fin(0.0)) then Fin(0.0) else h.arith(op, x.value, y.value);
      if a.Number? && a.n.Int? && b.Number? && b.n.Int? && (res.Fin? || res.NegZero?)
         && RealOf(res) == RealOf(res).Floor as real
         && -9007199254740992.0 < RealOf(res) < 9007199254740992.0
      then Number(Int(RealOf(res).Floor))
      else OfF64(res)
  }

  function Str(h: Host, v: Value): string {
    match v
    case String(s) => s
    case Null => ""
    case _ => Text(h, v)
  }

  function ConcatAll(h: Host, vs: seq<Value>): string {
    if vs == [] then "" else Str(h, vs[0]) + ConcatAll(h, vs[1..])
  }

  function FirstNonNull(vs: seq<Value>): Value {
    if vs == [] then Null else if vs[0] != Null then vs[0] else FirstNonNull(vs[1..])
  }

  function Lookup(row: Row, key: string): Option<Value> {
    if key in row then Some(row[key]) else None
  }

  function OrNull(o: Option<Value>): Value {
    if o.Some? then o.value else Null
  }

  function FullKey(qualifier: seq<string>, col: string): string {
    if qualifier == [] then col else qualifier[0] + "." + FullKey(qualifier[1..], col)
  }

  function BinaryValue(h: Host, op: BinaryOp, l: Value, r: Value): Value {
    match op
    case Eq => Bool(JsonEq(h, l, r))
    case NotEq => Bool(!JsonEq(h, l, r))
    case Lt => Bool(CmpJson(h, l, r) == Less)
    case LtEq => Bool(CmpJson(h, l, r) != Greater)
    case Gt => Bool(CmpJson(h, l, r) == Greater)
    case GtEq => Bool(CmpJson(h, l, r) != Less)
    case And => Bool(AsBool(l) && AsBool(r))
    case Or => Bool(AsBool(l) || AsBool(r))
    case Calc(a) => NumericOp(h, a, l, r)
    case StringConcat => String(Str(h, l) + Str(h, r))
    case OtherBinary => Null
  }

  function FuncValue(h: Host, name: string, args: seq<Value>): Value {
    if name == "COALESCE" then FirstNonNull(args)
    else if name == "IF" then
      if |args| >= 3 then (if AsBool(args[0]) then args[1] else args[2]) else Null
    else if name == "CONCAT" then String(ConcatAll(h, args))
    else h.scalar(name, args)
  }

  // The first branch whose condition matches, as in CASE.
  function CaseValue(h: Host, operand: Option<Value>, conds: seq<Value>, results: seq<Value>, els: Value): Value
    decreases |conds|
  {
    if conds == [] || results == [] then els
    else if (if operand.Some? then JsonEq(h, conds[0], operand.value) else AsBool(conds[0])) then results[0]
    else CaseValue(h, operand, conds[1..], results[1..], els)
  }

  function Eval(h: Host, e: Expr, row: Row): Value
    decreases e
  {
    match e
    case Ident(n) => OrNull(Lookup(row, n))
    case Compound(q, c) =>
      var full := Lookup(row, FullKey(q, c));
      if full.Some? then full.value else OrNull(Lookup(row, c))
    case Lit(v) => v
    case Unary(op, x) =>
      var v := Eval(h, x, row);
      (match op
       case Not => Bool(!AsBool(v))
       case Minus => if AsNumber(h, v).Some? then OfF64(Negate(AsNumber(h, v).value)) else Null
       case OtherUnary => v)
    case Binary(op, l, r) => BinaryValue(h, op, Eval(h, l, row), Eval(h, r, row))
    case Like(x, p, neg) => Bool(h.like(Str(h, Eval(h, x, row)), Str(h, Eval(h, p, row))) != neg)
    case IsNull(x) => Bool(Eval(h, x, row) == Null)
    case IsNotNull(x) => Bool(Eval(h, x, row) != Null)
    case InList(x, list, neg) =>
      var v := Eval(h, x, row);
      var vs := EvalAll(h, list, row);
      Bool((exists i :: 0 <= i < |vs| && JsonEq(h, v, vs[i])) != neg)
    case Between(x, lo, hi, neg) =>
      var v := Eval(h, x, row);
      Bool((CmpJson(h, v, Eval(h, lo, row)) != Less && CmpJson(h, v, Eval(h, hi, row)) != Greater) != neg)
    case Nested(x) => Eval(h, x, row)
    case Func(name, args) => FuncValue(h, name, EvalAll(h, args, row))
    case Case(operand, conds, results, els) =>
      CaseValue(h,
                if operand.Some? then Some(Eval(h, operand.value, row)) else None,
                EvalAll(h, conds, row), EvalAll(h, results, row),
                if els.Some? then Eval(h, els.value, row) else Null)
    case Other => Null
  }

  function EvalAll(h: Host, es: seq<Expr>, row: Row): seq<Value>
    decreases es
  {
    if es == [] then [] else [Eval(h, es[0], row)] + EvalAll(h, es[1..], row)
  }

  predicate Holds(h: Host, e: Expr, row: Row) {
    AsBool(Eval(h, e, row))
  }

  // ----- row keys an expression reads

  // Every key the evaluator may look up.
  function Names(e: Expr): set<string>
    decreases e
  {
    match e
    case Ident(n) => {n}
    case Compound(q, c) => {FullKey(q, c), c}
    case Lit(_) => {}
    case Unary(_, x) => Names(x)
    case Binary(_, l, r) => Names(l) + Names(r)
    case Like(x, p, _) => Names(x) + Names(p)
    case IsNull(x) => Names(x)
    case IsNotNull(x) => Names(x)
    case InList(x, list, _) => Names(x) + NamesAll(list)
    case Between(x, lo, hi, _) => Names(x) + Names(lo) + Names(hi)
    case Nested(x) => Names(x)
    case Func(_, args) => NamesAll(args)
    case Case(operand, conds, results, els) =>
      (if operand.Some? then Names(operand.value) else {}) + NamesAll(conds) + NamesAll(results)
      + (if els.Some? then Names(els.value) else {})
    case Other => {}
  }

  function NamesAll(es: seq<Expr>): set<string>
    decreases es
  {
    if es == [] then {} else Names(es[0]) + NamesAll(es[1..])
  }

  ghost predicate AgreeOn(names: set<string>, r1: Row, r2: Row) {
    forall n :: n in names ==> Lookup(r1, n) == Lookup(r2, n)
  }

  // Evaluation is local: rows that agree on the keys an expression reads give
  // it the same value.
  lemma {:induction false} EvalLocal(h: Host, e: Expr, r1: Row, r2: Row)
    requires AgreeOn(Names(e), r1, r2)
    ensures Eval(h, e, r1) == Eval(h, e, r2)
    decreases e, 1
  {
    match e
    case Ident(n) =>
    case Compound(q, c) =>
    case Lit(_) =>
    case Unary(_, x) => EvalLocal(h, x, r1, r2);
    case Binary(_, l, r) => EvalLocal(h, l, r1, r2); EvalLocal(h, r, r1, r2);
    case Like(_, _, _) => EvalTestLocal(h, e, r1, r2);
    case IsNull(x) => EvalLocal(h, x, r1, r2);
    case IsNotNull(x) => EvalLocal(h, x, r1, r2);
    case InList(_, _, _) => EvalTestLocal(h, e, r1, r2);
    case Between(_, _, _, _) => EvalTestLocal(h, e, r1, r2);
    case Nested(x) => EvalLocal(h, x, r1, r2);
    case Func(_, args) => EvalAllLocal(h, args, r1, r2);
    case Case(_, _, _, _) => EvalCaseLocal(h, e, r1, r2);
    case Other =>
  }

  lemma {:induction false} EvalTestLocal(h: Host, e: Expr, r1: Row, r2: Row)
    requires (e.Like? || e.InList? || e.Between?) && AgreeOn(Names(e), r1, r2)
    ensures Eval(h, e, r1) == Eval(h, e, r2)
    decreases e, 0
  {
    match e
    case Like(x, p, _) => EvalLocal(h, x, r1, r2); EvalLocal(h, p, r1, r2);
    case InList(x, list, _) => EvalLocal(h, x, r1, r2); EvalAllLocal(h, list, r1, r2);
    case Between(x, lo, hi, _) =>
      EvalLocal(h, x, r1, r2); EvalLocal(h, lo, r1, r2); EvalLocal(h, hi, r1, r2);
  }

  lemma {:induction false} EvalCaseLocal(h: Host, e: Expr, r1: Row, r2: Row)
    requires e.Case? && AgreeOn(Names(e), r1, r2)
    ensures Eval(h, e, r1) == Eval(h, e, r2)
    decreases e, 0
  {
    var Case(operand, conds, results, els) := e;
    if operand.Some? { EvalLocal(h, operand.value, r1, r2); }
    EvalAllLocal(h, conds, r1, r2);
    EvalAllLocal(h, results, r1, r2);
    if els.Some? { EvalLocal(h, els.value, r1, r2); }
  }

  lemma {:induction false} EvalAllLocal(h: Host, es: seq<Expr>, r1: Row, r2: Row)
    requires AgreeOn(NamesAll(es), r1, r2)
    ensures EvalAll(h, es, r1) == EvalAll(h, es, r2)
    decreases es
  {
    if es != [] {
      EvalLocal(h, es[0], r1, r2);
      EvalAllLocal(h, es[1..], r1, r2);
    }
  }

  // ----- columns the planner collects

  function LowerChar(c: char): char {
    if 'A' <= c <= 'Z' then (c as int + 32) as char else c
  }

  function Lower(s: string): (t: string)
    ensures |t| == |s| && forall i :: 0 <= i < |s| ==> t[i] == LowerChar(s[i])
  {
    seq(|s|, i requires 0 <= i < |s| => LowerChar(s[i]))
  }

  // The planner's walk over an expression. It descends into every form except
  // IS NULL and IS NOT NULL.
  function Cols(e: Expr): set<string>
    decreases e
  {
    match e
    case Ident(n) => {Lower(n)}
    case Compound(_, c) => {Lower(c)}
    case Lit(_) => {}
    case Unary(_, x) => Cols(x)
    case Binary(_, l, r) => Cols(l) + Cols(r)
    case Like(x, p, _) => Cols(x) + Cols(p)
    case IsNull(_) => {}
    case IsNotNull(_) => {}
    case InList(x, list, _) => Cols(x) + ColsAll(list)
    case Between(x, lo, hi, _) => Cols(x) + Cols(lo) + Cols(hi)
    case Nested(x) => Cols(x)
    case Func(_, args) => ColsAll(args)
    case Case(operand, conds, results, els) =>
      (if operand.Some? then Cols(operand.value) else {}) + ColsAll(conds) + ColsAll(results)
      + (if els.Some? then Cols(els.value) else {})
    case Other => {}
  }

  function ColsAll(es: seq<Expr>): set<string>
    decreases es
  {
    if es == [] then {} else Cols(es[0]) + ColsAll(es[1..])
  }

  predicate EndsWith(s: string, t: string) {
    |t| <= |s| && s[|s| - |t|..] == t
  }

  // How a row key is matched against a collected column: by its lower-case
  // name, or as `alias.column`.
  predicate KeyMatches(key: string, col: string) {
    Lower(key) == col || EndsWith(Lower(key), "." + col)
  }

  predicate Wanted(key: string, cols: set<string>) {
    exists c :: c in cols && KeyMatches(key, c)
  }

  // Every key the expression reads is one the planner knows about.
  ghost predicate Covered(e: Expr, cols: set<string>) {
    forall n :: n in Names(e) ==> Wanted(n, cols)
  }

  predicate NoNullTests(e: Expr)
    decreases e
  {
    match e
    case IsNull(_) => false
    case IsNotNull(_) => false
    case Unary(_, x) => NoNullTests(x)
    case Binary(_, l, r) => NoNullTests(l) && NoNullTests(r)
    case Like(x, p, _) => NoNullTests(x) && NoNullTests(p)
    case InList(x, list, _) => NoNullTests(x) && NoNullTestsAll(list)
    case Between(x, lo, hi, _) => NoNullTests(x) && NoNullTests(lo) && NoNullTests(hi)
    case Nested(x) => NoNullTests(x)
    case Func(_, args) => NoNullTestsAll(args)
    case Case(operand, conds, results, els) =>
      (operand.Some? ==> NoNullTests(operand.value)) && NoNullTestsAll(conds) && NoNullTestsAll(results)
      && (els.Some? ==> NoNullTests(els.value))
    case _ => true
  }

  predicate NoNullTestsAll(es: seq<Expr>)
    decreases es
  {
    es == [] || (NoNullTests(es[0]) && NoNullTestsAll(es[1..]))
  }

  lemma LowerAppend(s: string, t: string)
    ensures Lower(s + t) == Lower(s) + Lower(t)
  {
  }

  lemma {:induction false} FullKeyMatches(q: seq<string>, c: string)
    ensures KeyMatches(FullKey(q, c), Lower(c))
  {
    if q != [] {
      var rest := FullKey(q[1..], c);
      FullKeyMatches(q[1..], c);
      LowerAppend(q[0] + ".", rest);
      LowerAppend(q[0], ".");
      assert Lower(".") == ".";
      var k := Lower(q[0] + "." + rest);
      assert k == Lower(q[0]) + "." + Lower(rest);
      if Lower(rest) == Lower(c) {
        assert k[|k| - |Lower(c)| - 1..] == "." + Lower(c);
      } else {
        var t := "." + Lower(c);
        assert k[|k| - |t|..] == Lower(rest)[|Lower(rest)| - |t|..];
      }
    }
  }

  lemma WantedMonotone(key: string, cols: set<string>, more: set<string>)
    requires Wanted(key, cols) && cols <= more
    ensures Wanted(key, more)
  {
  }

  // Without null tests the planner's walk misses no column.
  lemma {:induction false} WalkIsComplete(e: Expr)
    requires NoNullTests(e)
    ensures Covered(e, Cols(e))
    decreases e, 1
  {
    match e
    case Ident(n) => assert KeyMatches(n, Lower(n));
    case Compound(q, c) => FullKeyMatches(q, c); assert KeyMatches(c, Lower(c));
    case Lit(_) =>
    case Unary(_, x) => WalkIsComplete(x);
    case Binary(_, l, r) => WalkIsComplete(l); WalkIsComplete(r);
    case Like(_, _, _) => WalkOfTest(e);
    case InList(_, _, _) => WalkOfTest(e);
    case Between(_, _, _, _) => WalkOfTest(e);
    case Nested(x) => WalkIsComplete(x);
    case Func(_, args) => WalkIsCompleteAll(args);
    case Case(_, _, _, _) => WalkOfCase(e);
    case Other =>
  }

  lemma {:induction false} WalkOfTest(e: Expr)
    requires (e.Like? || e.InList? || e.Between?) && NoNullTests(e)
    ensures Covered(e, Cols(e))
    decreases e, 0
  {
    match e
    case Like(x, p, _) => WalkIsComplete(x); WalkIsComplete(p);
    case InList(x, list, _) => WalkIsComplete(x); WalkIsCompleteAll(list);
    case Between(x, lo, hi, _) => WalkIsComplete(x); WalkIsComplete(lo); WalkIsComplete(hi);
  }

  lemma {:induction false} WalkOfCase(e: Expr)
    requires e.Case? && NoNullTests(e)
    ensures Covered(e, Cols(e))
    decreases e, 0
  {
    var Case(operand, conds, results, els) := e;
    if operand.Some? { WalkIsComplete(operand.value); }
    WalkIsCompleteAll(conds);
    WalkIsCompleteAll(results);
    if els.Some? { WalkIsComplete(els.value); }
  }

  lemma {:induction false} WalkIsCompleteAll(es: seq<Expr>)
    requires NoNullTestsAll(es)
    ensures forall n :: n in NamesAll(es) ==> Wanted(n, ColsAll(es))
    decreases es
  {
    if es != [] {
      WalkIsComplete(es[0]);
      WalkIsCompleteAll(es[1..]);
    }
  }

  // ----- decomposing WHERE

  function Conjuncts(e: Expr): seq<Expr> {
    match e
    case Binary(And, l, r) => Conjuncts(l) + Conjuncts(r)
    case Nested(x) => Conjuncts(x)
    case _ => [e]
  }

  function SimpleCol(e: Expr): Option<string> {
    match e
    case Ident(n) => Some(n)
    case Compound(_, c) => Some(c)
    case _ => None
  }

  function EqPairs(e: Expr): seq<(string, string)> {
    match e
    case Binary(Eq, l, r) =>
      if SimpleCol(l).Some? && SimpleCol(r).Some? then [(SimpleCol(l).value, SimpleCol(r).value)] else []
    case Binary(And, l, r) => EqPairs(l) + EqPairs(r)
    case Nested(x) => EqPairs(x)
    case _ => []
  }

  // A row passes WHERE exactly when it passes every conjunct.
  lemma {:induction false} ConjunctsMeaning(h: Host, e: Expr, row: Row)
    ensures Holds(h, e, row) <==> forall c :: c in Conjuncts(e) ==> Holds(h, c, row)
  {
    match e
    case Binary(And, l, r) =>
      ConjunctsMeaning(h, l, row);
      ConjunctsMeaning(h, r, row);
    case Nested(x) => ConjunctsMeaning(h, x, row);
    case _ => assert e in Conjuncts(e);
  }

  // Each extracted pair is an equality that every passing row satisfies.
  lemma {:induction false} EqPairMeaning(h: Host, e: Expr, row: Row, a: string, b: string)
    returns (l: Expr, r: Expr)
    requires (a, b) in EqPairs(e) && Holds(h, e, row)
    ensures SimpleCol(l) == Some(a) && SimpleCol(r) == Some(b)
    ensures JsonEq(h, Eval(h, l, row), Eval(h, r, row))
  {
    match e
    case Binary(Eq, x, y) => l, r := x, y;
    case Binary(And, x, y) =>
      if (a, b) in EqPairs(x) {
        l, r := EqPairMeaning(h, x, row, a, b);
      } else {
        l, r := EqPairMeaning(h, y, row, a, b);
      }
    case Nested(x) => l, r := EqPairMeaning(h, x, row, a, b);
    case _ =>
  }
}
