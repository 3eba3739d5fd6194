/** Scalar expressions, evaluated on one row or on a pair of joined rows. */
module Expressions {
  import opened Values

  datatype CmpOp = Equal | NotEqual | Less | LessEq | Greater | GreaterEq
  datatype ArithOp = Plus | Minus
  datatype LogicOp = And | Or

  datatype Expr =
    | Col(tupleIdx: nat, colIdx: nat, ty: TypeId)
    | Const(val: Value)
    | Cmp(cmpOp: CmpOp, left: Expr, right: Expr)
    | Arith(arithOp: ArithOp, left: Expr, right: Expr)
    | Logic(logicOp: LogicOp, left: Expr, right: Expr)

  function ReturnType(e: Expr): TypeId {
    match e
    case Col(_, _, ty) => ty
    case Const(v) => TypeOf(v)
    case Cmp(_, _, _) => Boolean
    case Arith(_, _, _) => Integer
    case Logic(_, _, _) => Boolean
  }

  /** Column access; past the end of the row there is nothing to read. */
  function At(row: Row, i: nat): Value {
    if i < |row| then row[i] else Null(Integer)
  }

  function DoCmp(op: CmpOp, l: Value, r: Value): CmpBool {
    if !Comparable(l, r) then CmpNull
    else
      var c := Compare(l, r);
      FromBool(match op
               case Equal => c == 0
               case NotEqual => c != 0
               case Less => c < 0
               case LessEq => c <= 0
               case Greater => c > 0
               case GreaterEq => c >= 0)
  }

  function DoArith(op: ArithOp, l: Value, r: Value): Value {
    if l.IntV? && r.IntV? then
      IntegerValue(match op case Plus => l.n + r.n case Minus => l.n - r.n)
    else Null(Integer)
  }

  function AsCmpBool(v: Value): CmpBool {
    if v.Null? then CmpNull else FromBool(Passes(v))
  }

  function DoLogic(op: LogicOp, l: CmpBool, r: CmpBool): CmpBool {
    match op
    case And => if l.CmpFalse? || r.CmpFalse? then CmpFalse
                else if l.CmpTrue? && r.CmpTrue? then CmpTrue else CmpNull
    case Or => if l.CmpFalse? && r.CmpFalse? then CmpFalse
               else if l.CmpTrue? || r.CmpTrue? then CmpTrue else CmpNull
  }

  function Eval(e: Expr, row: Row): Value {
    match e
    case Col(_, i, _) => At(row, i)
    case Const(v) => v
    case Cmp(op, l, r) => BoolValue(DoCmp(op, Eval(l, row), Eval(r, row)))
    case Arith(op, l, r) => DoArith(op, Eval(l, row), Eval(r, row))
    case Logic(op, l, r) => BoolValue(DoLogic(op, AsCmpBool(Eval(l, row)), AsCmpBool(Eval(r, row))))
  }

  function EvalJoin(e: Expr, lrow: Row, rrow: Row): Value {
    match e
    case Col(t, i, _) => if t == 0 then At(lrow, i) else At(rrow, i)
    case Const(v) => v
    case Cmp(op, l, r) => BoolValue(DoCmp(op, EvalJoin(l, lrow, rrow), EvalJoin(r, lrow, rrow)))
    case Arith(op, l, r) => DoArith(op, EvalJoin(l, lrow, rrow), EvalJoin(r, lrow, rrow))
    case Logic(op, l, r) =>
      BoolValue(DoLogic(op, AsCmpBool(EvalJoin(l, lrow, rrow)), AsCmpBool(EvalJoin(r, lrow, rrow))))
  }

  function EvalRow(es: seq<Expr>, row: Row): (r: Row)
    ensures |r| == |es|
    ensures forall i :: 0 <= i < |es| ==> r[i] == Eval(es[i], row)
  {
    seq(|es|, i requires 0 <= i < |es| => Eval(es[i], row))
  }
}
