// What the evaluator's operators mean: comparisons, tests and CASE in terms of
// their operands' values.
module SqlMeaning {
  import opened Common
  import opened Json
  import opened Sql
  import opened ValueOrder

  lemma BinaryEval(h: Host, op: BinaryOp, l: Expr, r: Expr, row: Row)
    ensures Eval(h, Binary(op, l, r), row) == BinaryValue(h, op, Eval(h, l, row), Eval(h, r, row))
  {
  }

  lemma ValuesCompare(h: Host, x: Value, y: Value)
    requires h.Lawful()
    ensures BinaryValue(h, Lt, x, y) == Bool(Below(h, x, y)) && BinaryValue(h, GtEq, x, y) == Bool(!Below(h, x, y))
    ensures BinaryValue(h, Gt, x, y) == Bool(Below(h, y, x)) && BinaryValue(h, LtEq, x, y) == Bool(!Below(h, y, x))
    ensures Scalar(x) && Scalar(y) ==>
      BinaryValue(h, Eq, x, y) == Bool(SameScalar(h, x, y)) && BinaryValue(h, NotEq, x, y) == Bool(!SameScalar(h, x, y))
  {
    CmpJsonExact(h, x, y);
    if Scalar(x) && Scalar(y) { ScalarEqExact(h, x, y); }
  }

  // What each comparison says of two values: they follow one order and, for
  // scalars, one equality.
  ghost predicate Compares(h: Host, op: BinaryOp, x: Value, y: Value) {
    match op
    case Lt => Below(h, x, y)
    case GtEq => !Below(h, x, y)
    case Gt => Below(h, y, x)
    case LtEq => !Below(h, y, x)
    case Eq => SameScalar(h, x, y)
    case NotEq => !SameScalar(h, x, y)
    case _ => false
  }

  lemma ComparisonsMeaning(h: Host, op: BinaryOp, l: Expr, r: Expr, row: Row)
    requires h.Lawful() && (op.Lt? || op.LtEq? || op.Gt? || op.GtEq? || op.Eq? || op.NotEq?)
    ensures var x, y := Eval(h, l, row), Eval(h, r, row);
      (op.Eq? || op.NotEq? ==> Scalar(x) && Scalar(y)) ==> Eval(h, Binary(op, l, r), row) == Bool(Compares(h, op, x, y))
  {
    BinaryEval(h, op, l, r, row);
    ValuesCompare(h, Eval(h, l, row), Eval(h, r, row));
  }

  // On numbers they compare sizes, whatever mix of integers and floats.
  lemma NumbersCompare(h: Host, op: BinaryOp, l: Expr, r: Expr, row: Row, m: Num, n: Num)
    requires h.Lawful() && (op.Lt? || op.LtEq? || op.Gt? || op.GtEq? || op.Eq? || op.NotEq?)
    requires Eval(h, l, row) == Number(m) && Eval(h, r, row) == Number(n)
    ensures var x, y := NumReal(m), NumReal(n);
      Holds(h, Binary(op, l, r), row) <==>
      match op
      case Lt => x < y
      case LtEq => x <= y
      case Gt => x > y
      case GtEq => x >= y
      case Eq => x == y
      case _ => x != y
  {
    ComparisonsMeaning(h, op, l, r, row);
  }

  // AND, OR and NOT are the connectives of two-valued logic.
  lemma ConnectivesMeaning(h: Host, l: Expr, r: Expr, row: Row)
    ensures Holds(h, Binary(And, l, r), row) <==> Holds(h, l, row) && Holds(h, r, row)
    ensures Holds(h, Binary(Or, l, r), row) <==> Holds(h, l, row) || Holds(h, r, row)
    ensures Holds(h, Unary(Not, l), row) <==> !Holds(h, l, row)
  {
    BinaryEval(h, And, l, r, row);
    BinaryEval(h, Or, l, r, row);
  }

  // A condition is met unless it is false or NULL.
  lemma TruthMeaning(h: Host, e: Expr, row: Row)
    ensures Holds(h, e, row) <==> Eval(h, e, row) != Null && Eval(h, e, row) != Bool(false)
  {
  }

  // A qualified name is looked up as a whole, and then by its last part.
  lemma QualifiedMeaning(h: Host, table: string, column: string, row: Row)
    ensures var key := table + "." + column;
      Eval(h, Compound([table], column), row) ==
      if key in row then row[key] else if column in row then row[column] else Null
  {
    assert FullKey([table], column) == table + "." + column;
  }

  // A missing column is NULL, and a condition that is NULL is not met.
  lemma MissingMeaning(h: Host, column: string, row: Row)
    requires column !in row
    ensures Eval(h, Ident(column), row) == Null && !Holds(h, Ident(column), row)
  {
  }

  // ----- BETWEEN and IN

  // BETWEEN is the conjunction of two comparisons.
  lemma BetweenMeaning(h: Host, e: Expr, lo: Expr, hi: Expr, row: Row)
    ensures Eval(h, Between(e, lo, hi, false), row) == Eval(h, Binary(And, Binary(GtEq, e, lo), Binary(LtEq, e, hi)), row)
    ensures Eval(h, Between(e, lo, hi, true), row) == Eval(h, Unary(Not, Between(e, lo, hi, false)), row)
  {
  }

  lemma {:induction false} EvalAllAt(h: Host, es: seq<Expr>, row: Row, i: nat)
    requires i < |es|
    ensures i < |EvalAll(h, es, row)| && EvalAll(h, es, row)[i] == Eval(h, es[i], row)
  {
    if i > 0 { EvalAllAt(h, es[1..], row, i - 1); }
  }

  lemma {:induction false} EvalAllLength(h: Host, es: seq<Expr>, row: Row)
    ensures |EvalAll(h, es, row)| == |es|
  {
    if es != [] { EvalAllLength(h, es[1..], row); }
  }

  lemma EqMeaning(h: Host, l: Expr, r: Expr, row: Row)
    ensures Holds(h, Binary(Eq, l, r), row) <==> JsonEq(h, Eval(h, l, row), Eval(h, r, row))
  {
    BinaryEval(h, Eq, l, r, row);
  }

  ghost predicate AmongValues(h: Host, v: Value, vs: seq<Value>) {
    exists i :: 0 <= i < |vs| && JsonEq(h, v, vs[i])
  }

  lemma InEval(h: Host, e: Expr, list: seq<Expr>, negated: bool, row: Row)
    ensures Holds(h, InList(e, list, negated), row) <==> AmongValues(h, Eval(h, e, row), EvalAll(h, list, row)) != negated
  {
  }

  ghost predicate EqualsSome(h: Host, e: Expr, list: seq<Expr>, row: Row) {
    exists i :: 0 <= i < |list| && Holds(h, Binary(Eq, e, list[i]), row)
  }

  lemma AmongMeaning(h: Host, e: Expr, list: seq<Expr>, row: Row)
    ensures AmongValues(h, Eval(h, e, row), EvalAll(h, list, row)) <==> EqualsSome(h, e, list, row)
  {
    var v, vs := Eval(h, e, row), EvalAll(h, list, row);
    EvalAllLength(h, list, row);
    forall i | 0 <= i < |list| ensures Holds(h, Binary(Eq, e, list[i]), row) <==> JsonEq(h, v, vs[i]) {
      EvalAllAt(h, list, row, i);
      EqMeaning(h, e, list[i], row);
    }
  }

  // IN is the disjunction of the equalities with the list's members.
  lemma InMeaning(h: Host, e: Expr, list: seq<Expr>, row: Row)
    ensures Holds(h, InList(e, list, false), row) <==> EqualsSome(h, e, list, row)
    ensures Holds(h, InList(e, list, true), row) <==> !EqualsSome(h, e, list, row)
  {
    InEval(h, e, list, false, row);
    InEval(h, e, list, true, row);
    AmongMeaning(h, e, list, row);
  }

  // ----- CASE

  predicate CaseMatches(h: Host, operand: Option<Expr>, cond: Expr, row: Row) {
    if operand.Some? then Holds(h, Binary(Eq, cond, operand.value), row) else Holds(h, cond, row)
  }

  predicate ValueMatches(h: Host, operand: Option<Value>, cond: Value) {
    if operand.Some? then JsonEq(h, cond, operand.value) else AsBool(cond)
  }

  lemma {:induction false} CaseValueFirst(h: Host, operand: Option<Value>, conds: seq<Value>, results: seq<Value>, els: Value, k: nat)
    requires k <= |conds| == |results| && forall j :: 0 <= j < k ==> !ValueMatches(h, operand, conds[j])
    ensures k < |conds| && ValueMatches(h, operand, conds[k]) ==> CaseValue(h, operand, conds, results, els) == results[k]
    ensures k == |conds| ==> CaseValue(h, operand, conds, results, els) == els
  {
    if k > 0 { CaseValueFirst(h, operand, conds[1..], results[1..], els, k - 1); }
  }

  lemma MatchesAlike(h: Host, operand: Option<Expr>, cond: Expr, row: Row)
    ensures CaseMatches(h, operand, cond, row)
        <==> ValueMatches(h, if operand.Some? then Some(Eval(h, operand.value, row)) else None, Eval(h, cond, row))
  {
  }

  function ElseValue(h: Host, els: Option<Expr>, row: Row): Value {
    if els.Some? then Eval(h, els.value, row) else Null
  }

  lemma CaseEval(h: Host, operand: Option<Expr>, conds: seq<Expr>, results: seq<Expr>, els: Option<Expr>, row: Row)
    ensures Eval(h, Case(operand, conds, results, els), row)
         == CaseValue(h, if operand.Some? then Some(Eval(h, operand.value, row)) else None,
                      EvalAll(h, conds, row), EvalAll(h, results, row), ElseValue(h, els, row))
  {
  }

  lemma NoneMatches(h: Host, operand: Option<Expr>, conds: seq<Expr>, row: Row, op: Option<Value>, k: nat)
    requires k <= |conds| && forall j :: 0 <= j < k ==> !CaseMatches(h, operand, conds[j], row)
    requires op == if operand.Some? then Some(Eval(h, operand.value, row)) else None
    ensures |EvalAll(h, conds, row)| == |conds| && forall j :: 0 <= j < k ==> !ValueMatches(h, op, EvalAll(h, conds, row)[j])
  {
    EvalAllLength(h, conds, row);
    forall j | 0 <= j < k ensures !ValueMatches(h, op, EvalAll(h, conds, row)[j]) {
      EvalAllAt(h, conds, row, j);
      MatchesAlike(h, operand, conds[j], row);
    }
  }

  // CASE is the result of its first branch that matches, or else its ELSE, or
  // NULL.
  lemma CaseMeaning(h: Host, operand: Option<Expr>, conds: seq<Expr>, results: seq<Expr>, els: Option<Expr>, row: Row, k: nat)
    requires k <= |conds| == |results| && forall j :: 0 <= j < k ==> !CaseMatches(h, operand, conds[j], row)
    ensures k < |conds| && CaseMatches(h, operand, conds[k], row) ==>
      Eval(h, Case(operand, conds, results, els), row) == Eval(h, results[k], row)
    ensures k == |conds| ==>
      Eval(h, Case(operand, conds, results, els), row) == if els.Some? then Eval(h, els.value, row) else Null
  {
    var op := if operand.Some? then Some(Eval(h, operand.value, row)) else None;
    CaseEval(h, operand, conds, results, els, row);
    NoneMatches(h, operand, conds, row, op, k);
    EvalAllLength(h, results, row);
    CaseValueFirst(h, op, EvalAll(h, conds, row), EvalAll(h, results, row), ElseValue(h, els, row), k);
    if k < |conds| {
      EvalAllAt(h, conds, row, k);
      EvalAllAt(h, results, row, k);
      MatchesAlike(h, operand, conds[k], row);
    }
  }

  // ----- functions

  lemma {:induction false} FirstNonNullAt(vs: seq<Value>, k: nat)
    requires k <= |vs| && forall j :: 0 <= j < k ==> vs[j] == Null
    ensures FirstNonNull(vs) == if k == |vs| then Null else if vs[k] != Null then vs[k] else FirstNonNull(vs[k..])
  {
    if k > 0 {
      FirstNonNullAt(vs[1..], k - 1);
      assert k < |vs| ==> vs[1..][k - 1..] == vs[k..];
    } else if vs != [] {
      assert vs[0..] == vs;
    }
  }

  lemma FuncEval(h: Host, name: string, args: seq<Expr>, row: Row)
    ensures Eval(h, Func(name, args), row) == FuncValue(h, name, EvalAll(h, args, row))
  {
  }

  // COALESCE is its first argument that is not NULL, or NULL.
  lemma CoalesceMeaning(h: Host, args: seq<Expr>, row: Row, k: nat)
    requires k <= |args| && forall j :: 0 <= j < k ==> Eval(h, args[j], row) == Null
    ensures k == |args| ==> Eval(h, Func("COALESCE", args), row) == Null
    ensures k < |args| && Eval(h, args[k], row) != Null ==> Eval(h, Func("COALESCE", args), row) == Eval(h, args[k], row)
  {
    var vs := EvalAll(h, args, row);
    FuncEval(h, "COALESCE", args, row);
    EvalAllLength(h, args, row);
    forall j | 0 <= j < |args| ensures vs[j] == Eval(h, args[j], row) {
      EvalAllAt(h, args, row, j);
    }
    FirstNonNullAt(vs, k);
  }

  // What text a value has in a concatenation: nothing for NULL, a string as it
  // is, and anything else as JSON.
  function InText(h: Host, v: Value): string {
    match v
    case Null => ""
    case String(s) => s
    case Bool(true) => "true"
    case Bool(false) => "false"
    case Number(n) => h.numText(n)
    case _ => Text(h, v)
  }

  lemma StrIsText(h: Host, v: Value)
    ensures Str(h, v) == InText(h, v)
  {
  }

  lemma ConcatTwo(h: Host, x: Value, y: Value)
    ensures ConcatAll(h, [x, y]) == InText(h, x) + InText(h, y)
  {
    StrIsText(h, x);
    StrIsText(h, y);
    assert [x, y][1..] == [y] && [y][1..] == [];
    assert ConcatAll(h, [y]) == Str(h, y) + "";
  }

  lemma ConcatEval(h: Host, l: Expr, r: Expr, row: Row)
    ensures ConcatAll(h, EvalAll(h, [l, r], row)) == InText(h, Eval(h, l, row)) + InText(h, Eval(h, r, row))
  {
    EvalAllLength(h, [l, r], row);
    EvalAllAt(h, [l, r], row, 0);
    EvalAllAt(h, [l, r], row, 1);
    ConcatTwo(h, Eval(h, l, row), Eval(h, r, row));
    assert EvalAll(h, [l, r], row) == [Eval(h, l, row), Eval(h, r, row)];
  }

  // CONCAT of two arguments and the operator for it join the texts.
  lemma ConcatMeaning(h: Host, l: Expr, r: Expr, row: Row)
    ensures var t := String(InText(h, Eval(h, l, row)) + InText(h, Eval(h, r, row)));
      Eval(h, Binary(StringConcat, l, r), row) == t && Eval(h, Func("CONCAT", [l, r]), row) == t
  {
    BinaryEval(h, StringConcat, l, r, row);
    FuncEval(h, "CONCAT", [l, r], row);
    ConcatEval(h, l, r, row);
    StrIsText(h, Eval(h, l, row));
    StrIsText(h, Eval(h, r, row));
  }

  // LIKE matches the texts of its operands, and NOT LIKE is its negation.
  lemma LikeMeaning(h: Host, e: Expr, pattern: Expr, row: Row)
    ensures var found := h.like(InText(h, Eval(h, e, row)), InText(h, Eval(h, pattern, row)));
      Eval(h, Like(e, pattern, false), row) == Bool(found) && Eval(h, Like(e, pattern, true), row) == Bool(!found)
  {
  }

  // IF is its second or third argument, by its first.
  lemma IfMeaning(h: Host, cond: Expr, yes: Expr, no: Expr, row: Row)
    ensures Eval(h, Func("IF", [cond, yes, no]), row) == Eval(h, if Holds(h, cond, row) then yes else no, row)
  {
    var args := [cond, yes, no];
    FuncEval(h, "IF", args, row);
    EvalAllLength(h, args, row);
    EvalAllAt(h, args, row, 0);
    EvalAllAt(h, args, row, 1);
    EvalAllAt(h, args, row, 2);
  }

  // ----- arithmetic

  // Exact for integers as long as the library's operation on them is and the
  // result is below 2^53; a division by zero is zero; an operand that is no
  // number makes NULL.
  lemma IntegersCalculate(h: Host, op: Arith, l: Expr, r: Expr, row: Row, i: int, j: int, k: int)
    requires Eval(h, l, row) == Number(Int(i)) && Eval(h, r, row) == Number(Int(j))
    requires -9007199254740992 < k < 9007199254740992
    requires if op == Div && j == 0 then k == 0 else h.arith(op, Fin(i as real), Fin(j as real)) == Fin(k as real)
    ensures Eval(h, Binary(Calc(op), l, r), row) == Number(Int(k))
  {
    assert (k as real).Floor == k;
  }

  // With a float among the operands the result is a float, or NULL if it is
  // infinite or no number.
  lemma FloatsCalculate(h: Host, op: Arith, l: Expr, r: Expr, row: Row, m: Num, n: Num)
    requires Eval(h, l, row) == Number(m) && Eval(h, r, row) == Number(n) && (m.Float? || n.Float?)
    requires op == Div ==> NumReal(n) != 0.0
    ensures Eval(h, Binary(Calc(op), l, r), row) ==
      match h.arith(op, AsF64(m), AsF64(n))
      case Fin(x) => Number(Float(Fin(x)))
      case NegZero => Number(Float(NegZero))
      case _ => Null
  {
    BinaryEval(h, Calc(op), l, r, row);
  }

  lemma NoNumberNoResult(h: Host, op: Arith, l: Expr, r: Expr, row: Row)
    ensures var x, y := Eval(h, l, row), Eval(h, r, row);
      (x.Null? || x.Bool? || y.Null? || y.Bool?) ==> Eval(h, Binary(Calc(op), l, r), row) == Null
    ensures var x := Eval(h, l, row);
      x.Number? ==> Eval(h, Unary(Minus, l), row).Number? && NumReal(Eval(h, Unary(Minus, l), row).n) == -NumReal(x.n)
  {
  }
}
