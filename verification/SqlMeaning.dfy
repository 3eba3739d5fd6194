/**
 What the SQL operators say of two values, written on the values themselves (sections 8.2 and 8.12 of ISO/IEC
 9075:1992), and that evaluation computes it.
 */
module SqlMeaning {
  import opened Values
  import opened Expressions
  import opened Plans
  import opened PlanFacts

  // ---- the order of values ----

  /** The strings agree up to place `i`, where `a` ends or has the smaller character. */
  predicate SmallerAt(a: string, b: string, i: nat) {
    i <= |a| && i < |b| && a[..i] == b[..i] && (i < |a| ==> a[i] < b[i])
  }

  predicate ComesFirst(a: string, b: string) {
    exists i :: 0 <= i <= |a| && SmallerAt(a, b, i)
  }

  /** Both present and of one kind. */
  predicate Alike(l: Value, r: Value) {
    (l.BoolV? && r.BoolV?) || (l.IntV? && r.IntV?) || (l.StrV? && r.StrV?)
  }

  predicate Same(l: Value, r: Value)
    requires Alike(l, r)
  {
    match l
    case BoolV(b) => b == r.b
    case IntV(_, n) => n == r.n
    case StrV(s) => s == r.s
  }

  predicate Precedes(l: Value, r: Value)
    requires Alike(l, r)
  {
    match l
    case BoolV(b) => !b && r.b
    case IntV(_, n) => n < r.n
    case StrV(s) => ComesFirst(s, r.s)
  }

  lemma SmallerTail(a: string, b: string)
    requires a != [] && b != [] && a[0] == b[0]
    ensures ComesFirst(a, b) <==> ComesFirst(a[1..], b[1..])
  {
    if ComesFirst(a, b) {
      var i :| 0 <= i <= |a| && SmallerAt(a, b, i);
      assert a[1..][..i - 1] == a[..i][1..] && b[1..][..i - 1] == b[..i][1..];
      assert SmallerAt(a[1..], b[1..], i - 1);
    }
    if ComesFirst(a[1..], b[1..]) {
      var i :| 0 <= i <= |a[1..]| && SmallerAt(a[1..], b[1..], i);
      assert a[..i + 1] == [a[0]] + a[1..][..i] && b[..i + 1] == [b[0]] + b[1..][..i];
      assert SmallerAt(a, b, i + 1);
    }
  }

  lemma HeadDecides(a: string, b: string, i: nat)
    requires SmallerAt(a, b, i)
    ensures b != [] && (a == [] || a[0] <= b[0])
  {
    if i > 0 { assert a[..i][0] == b[..i][0]; }
  }

  lemma SmallerHead(a: string, b: string)
    requires b != [] && (a == [] || a[0] < b[0])
    ensures ComesFirst(a, b) && !ComesFirst(b, a) && a != b
  {
    assert SmallerAt(a, b, 0);
    if ComesFirst(b, a) {
      var i :| 0 <= i <= |b| && SmallerAt(b, a, i);
      HeadDecides(b, a, i);
    }
  }

  lemma {:induction false} CompareStringsMeans(a: string, b: string)
    ensures CompareStrings(a, b) < 0 <==> ComesFirst(a, b)
    ensures CompareStrings(a, b) == 0 <==> a == b
    ensures CompareStrings(a, b) > 0 <==> ComesFirst(b, a)
  {
    if a == [] && b == [] {
    } else if b != [] && (a == [] || a[0] < b[0]) {
      SmallerHead(a, b);
    } else if b == [] || b[0] < a[0] {
      SmallerHead(b, a);
    } else {
      CompareStringsMeans(a[1..], b[1..]);
      SmallerTail(a, b);
      SmallerTail(b, a);
      assert a == [a[0]] + a[1..] && b == [b[0]] + b[1..];
    }
  }

  lemma CompareMeans(l: Value, r: Value)
    ensures Comparable(l, r) <==> Alike(l, r)
    ensures Alike(l, r) ==>
              && (Compare(l, r) < 0 <==> Precedes(l, r))
              && (Compare(l, r) == 0 <==> Same(l, r))
              && (Compare(l, r) > 0 <==> Precedes(r, l))
  {
    if l.StrV? && r.StrV? { CompareStringsMeans(l.s, r.s); }
  }

  // ---- the operators by their text ----

  /** A comparison of values of different kinds, or with a null, is null. */
  function Judged(l: Value, r: Value, holds: bool): Value {
    if Alike(l, r) then BoolV(holds) else Null(Boolean)
  }

  /** Neither null nor false; for the operands of AND and OR. */
  predicate IsTrue(v: Value) {
    !v.Null? && Passes(v)
  }

  predicate IsFalse(v: Value) {
    !v.Null? && !Passes(v)
  }

  /** What `l op r` is for each operator text the planner knows. */
  function BinaryValue(op: string, l: Value, r: Value): Value {
    if op == "=" || op == "==" then Judged(l, r, Alike(l, r) && Same(l, r))
    else if op == "!=" || op == "<>" then Judged(l, r, Alike(l, r) && !Same(l, r))
    else if op == "<" then Judged(l, r, Alike(l, r) && Precedes(l, r))
    else if op == "<=" then Judged(l, r, Alike(l, r) && (Precedes(l, r) || Same(l, r)))
    else if op == ">" then Judged(l, r, Alike(l, r) && Precedes(r, l))
    else if op == ">=" then Judged(l, r, Alike(l, r) && (Precedes(r, l) || Same(l, r)))
    else if op == "+" then Counted(l, r, if l.IntV? && r.IntV? then l.n + r.n else 0)
    else if op == "-" then Counted(l, r, if l.IntV? && r.IntV? then l.n - r.n else 0)
    else if op == "and" then
      if IsFalse(l) || IsFalse(r) then BoolV(false) else if l.Null? || r.Null? then Null(Boolean) else BoolV(true)
    else
      if IsTrue(l) || IsTrue(r) then BoolV(true) else if l.Null? || r.Null? then Null(Boolean) else BoolV(false)
  }

  /** The number of the 32-bit range that differs from `n` by a multiple of 2 to the 32. */
  predicate Fits32(n: int, w: int) {
    -0x8000_0000 <= w < 0x8000_0000 && (n - w) % 0x1_0000_0000 == 0
  }

  /** An INTEGER result: null from anything but numbers, and when it falls on the number that stands for null. */
  function Counted(l: Value, r: Value, n: int): Value {
    if !(l.IntV? && r.IntV?) || Fits32(n, INT32_NULL) then Null(Integer) else IntV(Integer, Low32(n))
  }

  function Low32(n: int): (w: int)
    ensures Fits32(n, w)
  {
    var low := n % 0x1_0000_0000;
    if low < 0x8000_0000 then low else low - 0x1_0000_0000
  }

  lemma OneLow32(n: int, v: int, w: int)
    requires Fits32(n, v) && Fits32(n, w)
    ensures v == w
  {
    assert (v - w) % 0x1_0000_0000 == 0;
  }

  lemma WrapMeans(n: int)
    ensures Fits32(n, Wrap32(n))
    ensures IntegerValue(n) == if Fits32(n, INT32_NULL) then Null(Integer) else IntV(Integer, Low32(n))
  {
    OneLow32(n, Wrap32(n), Low32(n));
    if Fits32(n, INT32_NULL) { OneLow32(n, Wrap32(n), INT32_NULL); }
  }

  // ---- evaluation computes them ----

  /** The text of a comparison operator. */
  function TextOf(op: CmpOp): string {
    match op
    case Equal => "="
    case NotEqual => "<>"
    case Less => "<"
    case LessEq => "<="
    case Greater => ">"
    case GreaterEq => ">="
  }

  lemma ComparisonMeans(op: CmpOp, l: Value, r: Value)
    ensures BoolValue(DoCmp(op, l, r)) == BinaryValue(TextOf(op), l, r)
  {
    CompareMeans(l, r);
  }

  lemma ArithmeticMeans(op: ArithOp, l: Value, r: Value)
    ensures DoArith(op, l, r) == BinaryValue(if op == Plus then "+" else "-", l, r)
  {
    if l.IntV? && r.IntV? {
      WrapMeans(l.n + r.n);
      WrapMeans(l.n - r.n);
    }
  }

  lemma LogicMeans(op: LogicOp, l: Value, r: Value)
    ensures BoolValue(DoLogic(op, AsCmpBool(l), AsCmpBool(r))) == BinaryValue(if op == And then "and" else "or", l, r)
  {}

  /** On numbers of any widths each comparison is the relation of the integers; a null makes it null. */
  lemma IntegerComparisons(w: TypeId, n: int, v: TypeId, m: int)
    ensures DoCmp(Equal, IntV(w, n), IntV(v, m)) == FromBool(n == m)
    ensures DoCmp(NotEqual, IntV(w, n), IntV(v, m)) == FromBool(n != m)
    ensures DoCmp(Less, IntV(w, n), IntV(v, m)) == FromBool(n < m)
    ensures DoCmp(LessEq, IntV(w, n), IntV(v, m)) == FromBool(n <= m)
    ensures DoCmp(Greater, IntV(w, n), IntV(v, m)) == FromBool(n > m)
    ensures DoCmp(GreaterEq, IntV(w, n), IntV(v, m)) == FromBool(n >= m)
    ensures forall op, ty, x :: DoCmp(op, Null(ty), x) == CmpNull && DoCmp(op, x, Null(ty)) == CmpNull
  {}

  /** The columns an expression reads lie in the row and hold values of the types it expects. */
  predicate Suits(e: Expr, row: Row) {
    match e
    case Col(_, i, ty) => i < |row| && TypeOf(row[i]) == ty
    case Const(_) => true
    case Cmp(_, l, r) => Suits(l, row) && Suits(r, row)
    case Arith(_, l, r) => Suits(l, row) && Suits(r, row)
    case Logic(_, l, r) => Suits(l, row) && Suits(r, row)
  }

  /** An expression evaluates to a value of the type it announces; a comparison's is BOOLEAN, a sum's INTEGER. */
  lemma EvalTyped(e: Expr, row: Row)
    requires Suits(e, row)
    ensures TypeOf(Eval(e, row)) == ReturnType(e)
    ensures (e.Cmp? || e.Logic? ==> Eval(e, row) in {BoolV(true), BoolV(false), Null(Boolean)})
            && (e.Arith? ==> Eval(e, row) == Null(Integer) || (Eval(e, row).IntV? && Eval(e, row).width == Integer))
    ensures TypeOf(BoolV(true)) == Boolean == TypeOf(BoolV(false)) && forall ty, n :: TypeOf(IntV(ty, n)) == ty
  {}

  // ---- what a filter yields ----

  /** `out` is `rows` at the places `at`, in order. */
  predicate Picks(rows: seq<Row>, out: seq<Row>, at: seq<nat>) {
    && |at| == |out|
    && (forall j :: 0 <= j < |at| ==> at[j] < |rows| && out[j] == rows[at[j]])
    && forall i, j :: 0 <= i < j < |at| ==> at[i] < at[j]
  }

  predicate Included(at: seq<nat>, i: nat) {
    exists j :: 0 <= j < |at| && at[j] == i
  }

  /** A filter yields, in order, exactly the rows on which its predicate is neither null nor false. */
  lemma {:induction false} FilterPicks(pred: Expr, rows: seq<Row>) returns (at: seq<nat>)
    ensures Picks(rows, FilterRows(pred, rows), at)
    ensures forall i :: 0 <= i < |rows| ==> (Included(at, i) <==> IsTrue(Eval(pred, rows[i])))
  {
    at := [];
    if rows != [] {
      var rest := FilterPicks(pred, rows[1..]);
      var moved := Moved(rest);
      var first: seq<nat> := if IsTrue(Eval(pred, rows[0])) then [0] else [];
      at := first + moved;
      PicksMoved(rows, FilterRows(pred, rows[1..]), rest, first, Keep(pred, rows[0]));
      forall i | 0 <= i < |rows| ensures Included(at, i) <==> IsTrue(Eval(pred, rows[i])) {
        PlaceMoved(first, rest, moved, i);
        if i > 0 { assert rows[i] == rows[1..][i - 1]; }
      }
    }
  }

  function Moved(at: seq<nat>): (moved: seq<nat>)
    ensures |moved| == |at| && forall j :: 0 <= j < |at| ==> moved[j] == at[j] + 1
  {
    seq(|at|, j requires 0 <= j < |at| => at[j] + 1)
  }

  lemma PicksMoved(rows: seq<Row>, out: seq<Row>, rest: seq<nat>, first: seq<nat>, head: seq<Row>)
    requires rows != [] && Picks(rows[1..], out, rest)
    requires (first == [] && head == []) || (first == [0] && head == [rows[0]])
    ensures Picks(rows, head + out, first + Moved(rest))
  {
    var at, all, n := first + Moved(rest), head + out, |first|;
    forall j | 0 <= j < |at| ensures at[j] < |rows| && all[j] == rows[at[j]] {
      if j >= n { assert at[j] == rest[j - n] + 1 && all[j] == out[j - n] == rows[1..][rest[j - n]]; }
    }
  }

  lemma PlaceMoved(first: seq<nat>, rest: seq<nat>, moved: seq<nat>, i: nat)
    requires (first == [] || first == [0]) && |moved| == |rest|
    requires forall j :: 0 <= j < |rest| ==> moved[j] == rest[j] + 1
    ensures Included(first + moved, i) <==> if i == 0 then first == [0] else Included(rest, i - 1)
  {
    var at := first + moved;
    if Included(at, i) {
      var j :| 0 <= j < |at| && at[j] == i;
      if j >= |first| { assert at[j] == moved[j - |first|] == rest[j - |first|] + 1; }
    }
    if i > 0 && Included(rest, i - 1) {
      var j :| 0 <= j < |rest| && rest[j] == i - 1;
      assert at[j + |first|] == moved[j];
    }
    if i == 0 && first == [0] { assert at[0] == 0; }
  }

  predicate Relates(op: CmpOp, n: int, m: int) {
    match op
    case Equal => n == m
    case NotEqual => n != m
    case Less => n < m
    case LessEq => n <= m
    case Greater => n > m
    case GreaterEq => n >= m
  }

  /** The rows a filter comparing a column with a number yields are those whose number relates to it, in order. */
  lemma FilterOnColumn(db: Db, p: Plan, op: CmpOp, c: nat, ty: TypeId, w: TypeId, k: int) returns (at: seq<nat>)
    requires p.op == Filter(Cmp(op, Col(0, c, ty), Const(IntV(w, k)))) && |p.children| == 1
    ensures var rows := Denote(db, p.children[0]).rows;
            && Picks(rows, Denote(db, p).rows, at)
            && forall i :: 0 <= i < |rows| && c < |rows[i]| ==>
                 (Included(at, i) <==> rows[i][c].IntV? && Relates(op, rows[i][c].n, k))
  {
    var rows := Denote(db, p.children[0]).rows;
    Unary(db, p);
    at := FilterPicks(p.op.pred, rows);
    forall i | 0 <= i < |rows| && c < |rows[i]|
      ensures IsTrue(Eval(p.op.pred, rows[i])) <==> rows[i][c].IntV? && Relates(op, rows[i][c].n, k)
    {
      if rows[i][c].IntV? { IntegerComparisons(rows[i][c].width, rows[i][c].n, w, k); }
    }
  }
}
