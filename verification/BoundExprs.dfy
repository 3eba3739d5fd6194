/** Bound expressions and how the planner turns them into scalar expressions over one child or the two of a join. */
module BoundExprs {
  import opened Values
  import opened Expressions
  import opened Aggregates
  import opened Plans
  import Strings

  /** `Unsupported` stands for the expression kinds the planner rejects. */
  datatype BoundExpr =
    | AggCall(func: string, isDistinct: bool, args: seq<BoundExpr>)
    | ColumnRef(name: seq<string>)
    | BinaryOp(op: string, left: BoundExpr, right: BoundExpr)
    | Constant(val: Value)
    | Alias(alias: string, child: BoundExpr)
    | Unsupported

  const UNNAMED: string := "<unnamed>"

  /** A planned expression, its column name, and the next unconsumed aggregate. */
  datatype Planned = Planned(name: string, expr: Expr, next: nat)

  // ---- factories ----

  function ComparisonOf(op: string): Option<CmpOp> {
    if op == "=" || op == "==" then Some(Equal)
    else if op == "!=" || op == "<>" then Some(NotEqual)
    else if op == "<" then Some(Less)
    else if op == "<=" then Some(LessEq)
    else if op == ">" then Some(Greater)
    else if op == ">=" then Some(GreaterEq)
    else None
  }

  function BinaryFromFactory(op: string, l: Expr, r: Expr): Result<Expr> {
    if ComparisonOf(op).Some? then Ok(Cmp(ComparisonOf(op).value, l, r))
    else if op == "+" || op == "-" then
      if ReturnType(l) == Integer && ReturnType(r) == Integer
      then Ok(Arith(if op == "+" then Plus else Minus, l, r)) else Throw
    else if op == "and" || op == "or" then
      if ReturnType(l) == Boolean && ReturnType(r) == Boolean
      then Ok(Logic(if op == "and" then And else Or, l, r)) else Throw
    else Throw
  }

  function AggFromFactory(func: string, args: seq<Expr>): Result<(AggType, seq<Expr>)> {
    if args == [] && func == "count_star" then Ok((CountStar, []))
    else if |args| == 1 then
      if func == "min" then Ok((Min, args))
      else if func == "max" then Ok((Max, args))
      else if func == "sum" then Ok((Sum, args))
      else if func == "count" then Ok((Count, args))
      else Throw
    else Throw
  }

  // ---- columns by name ----

  function CountName(s: Schema, name: string): nat {
    if s == [] then 0 else (if s[0].name == name then 1 else 0) + CountName(s[1..], name)
  }

  function FirstNamed(s: Schema, name: string): nat {
    if s == [] || s[0].name == name then 0 else 1 + FirstNamed(s[1..], name)
  }

  /** A column is planned when exactly one column of the child bears its name. */
  function PlanColumn(name: string, s: Schema): Result<Expr> {
    var i := FirstNamed(s, name);
    if CountName(s, name) == 1 && i < |s| then Ok(Col(0, i, s[i].ty)) else Throw
  }

  lemma {:induction false} FirstNamedFound(s: Schema, name: string)
    ensures CountName(s, name) > 0 ==> FirstNamed(s, name) < |s| && s[FirstNamed(s, name)].name == name
    ensures CountName(s, name) == 0 <==> FirstNamed(s, name) == |s|
    ensures FirstNamed(s, name) <= |s|
    ensures forall i :: 0 <= i < FirstNamed(s, name) ==> s[i].name != name
  {
    if s != [] { FirstNamedFound(s[1..], name); }
  }

  /** Counting as the loop does, in search of a second column of the name. */
  method FindColumn(name: string, s: Schema) returns (r: Result<Expr>)
    ensures r == PlanColumn(name, s)
  {
    var found := false;
    for i := 0 to |s|
      invariant found == (CountName(s, name) - CountName(s[i..], name) == 1)
      invariant 0 <= CountName(s, name) - CountName(s[i..], name) <= 1
    {
      assert s[i..][1..] == s[i + 1..];
      if s[i].name == name {
        if found {
          return Throw;
        }
        found := true;
      }
    }
    FirstNamedFound(s, name);
    if found {
      var idx := FirstNamed(s, name);
      r := Ok(Col(0, idx, s[idx].ty));
    } else {
      r := Throw;
    }
  }

  // ---- planning over the two children of a join ----

  /** In a join condition a column is looked for in both children, and may be in one only. */
  function PlanJoinColumn(name: string, left: Schema, right: Schema): Result<Expr> {
    var i, j := FirstNamed(left, name), FirstNamed(right, name);
    if i < |left| && j < |right| then Throw
    else if i < |left| then Ok(Col(0, i, left[i].ty))
    else if j < |right| then Ok(Col(1, j, right[j].ty))
    else Throw
  }

  /** A join condition, where no aggregate is available. */
  function PlanJoinExpr(e: BoundExpr, left: Schema, right: Schema): Result<Expr> {
    match e
    case AggCall(_, _, _) => Throw
    case ColumnRef(name) => PlanJoinColumn(Strings.Join(name), left, right)
    case BinaryOp(op, l, r) =>
      var pl :- PlanJoinExpr(l, left, right);
      var pr :- PlanJoinExpr(r, left, right);
      BinaryFromFactory(op, pl, pr)
    case Constant(v) => Ok(Const(v))
    case Alias(_, c) => PlanJoinExpr(c, left, right)
    case Unsupported => Throw
  }

  // ---- planning over one child, with aggregate slots ----

  function PlanExpr(e: BoundExpr, s: Schema, slots: seq<Expr>, next: nat): Result<Planned> {
    match e
    case AggCall(_, _, _) => if next < |slots| then Ok(Planned(UNNAMED, slots[next], next + 1)) else Throw
    case ColumnRef(name) =>
      var c :- PlanColumn(Strings.Join(name), s);
      Ok(Planned(Strings.Join(name), c, next))
    case BinaryOp(op, l, r) =>
      var pl :- PlanExpr(l, s, slots, next);
      var pr :- PlanExpr(r, s, slots, pl.next);
      var b :- BinaryFromFactory(op, pl.expr, pr.expr);
      Ok(Planned(UNNAMED, b, pr.next))
    case Constant(v) => Ok(Planned(UNNAMED, Const(v), next))
    case Alias(a, c) =>
      var p :- PlanExpr(c, s, slots, next);
      Ok(p.(name := a))
    case Unsupported => Throw
  }

  /** The outermost aggregate calls, left before right. */
  function Collect(e: BoundExpr): seq<BoundExpr> {
    match e
    case AggCall(_, _, _) => [e]
    case BinaryOp(_, l, r) => Collect(l) + Collect(r)
    case Alias(_, c) => Collect(c)
    case _ => []
  }

  function CollectAll(es: seq<BoundExpr>): seq<BoundExpr> {
    if es == [] then [] else Collect(es[0]) + CollectAll(es[1..])
  }

  /** No kind outside the aggregate calls that the planner rejects. */
  predicate Supported(e: BoundExpr) {
    match e
    case BinaryOp(_, l, r) => Supported(l) && Supported(r)
    case Alias(_, c) => Supported(c)
    case Unsupported => false
    case _ => true
  }
}
