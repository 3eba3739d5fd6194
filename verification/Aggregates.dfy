/** The meaning of grouping and of the aggregate functions. */
module Aggregates {
  import opened Values
  import opened Expressions

  datatype AggType = CountStar | Count | Sum | Min | Max

  /** Only count(*) starts at zero; the others start at null. */
  function Initial(t: AggType): Value {
    if t == CountStar then IntV(Integer, 0) else Null(Integer)
  }

  /** One more input value; null inputs are ignored except by count(*). */
  function Combine(t: AggType, acc: Value, v: Value): Value {
    if t == CountStar then DoArith(Plus, acc, IntV(Integer, 1))
    else if v.Null? then acc
    else if t == Count then (if acc.Null? then IntV(Integer, 1) else DoArith(Plus, acc, IntV(Integer, 1)))
    else if acc.Null? then v
    else match t
      case Sum => DoArith(Plus, acc, v)
      case Min => if Compare(v, acc) < 0 then v else acc
      case _ => if Compare(v, acc) > 0 then v else acc
  }

  function Aggregate(t: AggType, arg: Expr, rows: seq<Row>): Value {
    if rows == [] then Initial(t)
    else Combine(t, Aggregate(t, arg, rows[..|rows| - 1]), Eval(arg, rows[|rows| - 1]))
  }

  /** The distinct grouping keys in order of first appearance. */
  function GroupKeys(groupBys: seq<Expr>, rows: seq<Row>): seq<Row> {
    if rows == [] then []
    else
      var before := GroupKeys(groupBys, rows[..|rows| - 1]);
      var key := EvalRow(groupBys, rows[|rows| - 1]);
      if key in before then before else before + [key]
  }

  /** Without GROUP BY there is exactly one group, even over no rows. */
  function Groups(groupBys: seq<Expr>, rows: seq<Row>): seq<Row> {
    if groupBys == [] then [[]] else GroupKeys(groupBys, rows)
  }

  function GroupRows(groupBys: seq<Expr>, key: Row, rows: seq<Row>): seq<Row> {
    if rows == [] then []
    else (if EvalRow(groupBys, rows[0]) == key then [rows[0]] else []) + GroupRows(groupBys, key, rows[1..])
  }

  /** The output row of one group: its key, then each aggregate over its rows. */
  function GroupOutput(groupBys: seq<Expr>, aggs: seq<Expr>, types: seq<AggType>, key: Row, rows: seq<Row>): Row
    requires |aggs| == |types|
  {
    var members := GroupRows(groupBys, key, rows);
    key + seq(|aggs|, i requires 0 <= i < |aggs| => Aggregate(types[i], aggs[i], members))
  }

  function AggRows(groupBys: seq<Expr>, aggs: seq<Expr>, types: seq<AggType>, rows: seq<Row>): seq<Row>
    requires |aggs| == |types|
  {
    var keys := Groups(groupBys, rows);
    seq(|keys|, i requires 0 <= i < |keys| => GroupOutput(groupBys, aggs, types, keys[i], rows))
  }

  lemma {:induction false} GroupKeyWidth(groupBys: seq<Expr>, rows: seq<Row>)
    ensures forall k :: k in GroupKeys(groupBys, rows) ==> |k| == |groupBys|
  {
    if rows != [] { GroupKeyWidth(groupBys, rows[..|rows| - 1]); }
  }
}
