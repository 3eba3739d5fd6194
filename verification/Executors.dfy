/** The pull-based executors: stateful iterators that yield a plan's rows one at a time. */
module Executors {
  import opened Values
  import opened Expressions
  import opened Plans
  import opened PlanFacts
  import opened Seqs

  /** A mock table: its row function, its size, and whether scans visit it in a shuffled order. */
  datatype MockTable = MockTable(func: nat -> Row, size: nat, shuffled: bool)

  /** The plans whose executors exist. */
  predicate Executable(p: Plan) {
    match p.op
    case Filter(_) => |p.children| == 1 && Executable(p.children[0])
    case Projection(_) => |p.children| == 1 && Executable(p.children[0])
    case ValuesList(_) => p.children == []
    case MockScan(_) => p.children == []
    case _ => false
  }

  /** The rows of a mock scan that visits positions `idx`, or counts up when there is no shuffle. */
  function MockRows(m: MockTable, idx: seq<nat>): (rows: seq<Row>)
    ensures |rows| == m.size
  {
    seq(m.size, i requires 0 <= i < m.size => m.func(if i < |idx| then idx[i] else i))
  }

  method EvaluateAll(es: seq<Expr>, row: Row) returns (values: Row)
    ensures values == EvalRow(es, row)
  {
    values := [];
    for i := 0 to |es|
      invariant |values| == i && forall k :: 0 <= k < i ==> values[k] == Eval(es[k], row)
    {
      values := values + [Eval(es[i], row)];
    }
  }

  lemma MapCons(es: seq<Expr>, r: Row, rows: seq<Row>)
    ensures MapRows(es, [r] + rows) == [EvalRow(es, r)] + MapRows(es, rows)
  {
  }

  /** `db` fixes what the plan denotes; for mock scans, the shuffle drawn at construction. */
  class Executor {
    const plan: Plan
    const child: Executor?
    const mock: MockTable
    const shuffledIdx: seq<nat>
    var cursor: nat
    ghost const db: Db
    ghost const Repr: set<object>

    ghost predicate Valid()
      reads this, Repr
      decreases plan
    {
      && this in Repr
      && match plan.op
         case Filter(_) => HasChild() && child.Valid()
         case Projection(_) => HasChild() && child.Valid()
         case ValuesList(ts) => plan.children == [] && cursor <= |ts|
         case MockScan(t) =>
           && plan.children == [] && cursor <= mock.size
           && (shuffledIdx == [] || |shuffledIdx| == mock.size)
           && t in db.mock && db.mock[t] == MockRows(mock, shuffledIdx)
         case _ => false
    }

    ghost predicate HasChild()
      reads this
    {
      && |plan.children| == 1 && child != null && child in Repr && child.Repr <= Repr && this !in child.Repr
      && child.plan == plan.children[0] && child.db == db
    }

    /** The rows still to be yielded. */
    ghost function Remaining(): seq<Row>
      requires Valid()
      reads this, Repr
      decreases plan
    {
      match plan.op
      case Filter(p) => FilterRows(p, child.Remaining())
      case Projection(es) => MapRows(es, child.Remaining())
      case ValuesList(ts) => ValueRows(ts)[cursor..]
      case MockScan(_) => MockRows(mock, shuffledIdx)[cursor..]
    }

    constructor Leaf(plan: Plan, mock: MockTable, order: seq<nat>, ghost db: Db)
      requires Executable(plan) && plan.children == []
      requires plan.op.MockScan? && mock.shuffled ==> multiset(order) == multiset(Range(mock.size))
      requires plan.op.MockScan? ==>
                 (plan.op.table in db.mock
                  && db.mock[plan.op.table] == MockRows(mock, if mock.shuffled then order else []))
      ensures Valid() && fresh(Repr) && this.plan == plan && this.db == db
    {
      this.plan, this.mock, this.db := plan, mock, db;
      child := null;
      cursor := 0;
      Repr := {this};
      shuffledIdx := if mock.shuffled then order else [];
      new;
      if mock.shuffled && plan.op.MockScan? {
        assert |multiset(order)| == |multiset(Range(mock.size))|;
      }
    }

    constructor Over(plan: Plan, child: Executor)
      requires Executable(plan) && |plan.children| == 1 && child.Valid() && child.plan == plan.children[0]
      ensures Valid() && fresh(Repr - child.Repr) && Repr == child.Repr + {this}
      ensures this.plan == plan && this.db == child.db && this.child == child
    {
      this.plan, this.child, this.db := plan, child, child.db;
      mock, shuffledIdx, cursor := MockTable(i => [], 0, false), [], 0;
      Repr := child.Repr + {this};
    }

    /** From any state, the iterator starts over at the plan's first row. */
    method Init()
      requires Valid()
      modifies Repr
      ensures Valid() && Remaining() == Denote(db, plan).rows
      decreases plan
    {
      match plan.op
      case Filter(_) => child.Init(); Unary(db, plan);
      case Projection(_) => child.Init(); Unary(db, plan);
      case ValuesList(_) => cursor := 0;
      case MockScan(_) => cursor := 0;
    }

    /** One pull: the first remaining row, or the end. */
    method Next() returns (active: bool, tuple: Row)
      requires Valid()
      modifies Repr
      ensures Valid() && active == (old(Remaining()) != [])
      ensures active ==> old(Remaining()) == [tuple] + Remaining()
      ensures !active ==> Remaining() == []
      decreases plan
    {
      match plan.op
      case Filter(p) => active, tuple := FilterNext(p);
      case Projection(es) => active, tuple := ProjectionNext(es);
      case ValuesList(ts) => active, tuple := ValuesNext(ts);
      case MockScan(_) => active, tuple := MockNext();
    }

    method FilterNext(p: Expr) returns (active: bool, tuple: Row)
      requires Valid() && plan.op == Filter(p)
      modifies Repr
      ensures Valid() && active == (old(Remaining()) != [])
      ensures active ==> old(Remaining()) == [tuple] + Remaining()
      ensures !active ==> Remaining() == []
      decreases plan, 0
    {
      ghost var start := Remaining();
      while true
        invariant Valid() && Remaining() == start
        decreases |child.Remaining()|
      {
        var status;
        status, tuple := child.Next();
        if !status {
          return false, tuple;
        }
        if Passes(Eval(p, tuple)) {
          return true, tuple;
        }
      }
    }

    method ProjectionNext(es: seq<Expr>) returns (active: bool, tuple: Row)
      requires Valid() && plan.op == Projection(es)
      modifies Repr
      ensures Valid() && active == (old(Remaining()) != [])
      ensures active ==> old(Remaining()) == [tuple] + Remaining()
      ensures !active ==> Remaining() == []
      decreases plan, 0
    {
      var status, childTuple := child.Next();
      if !status {
        return false, childTuple;
      }
      tuple := EvaluateAll(es, childTuple);
      active := true;
      MapCons(es, childTuple, child.Remaining());
    }

    method ValuesNext(ts: seq<seq<Expr>>) returns (active: bool, tuple: Row)
      requires Valid() && plan.op == ValuesList(ts)
      modifies Repr
      ensures Valid() && active == (old(Remaining()) != [])
      ensures active ==> old(Remaining()) == [tuple] + Remaining()
      ensures !active ==> Remaining() == []
      decreases plan, 0
    {
      if cursor >= |ts| {
        return false, [];
      }
      tuple := EvaluateAll(ts[cursor], []);
      cursor := cursor + 1;
      active := true;
    }

    method MockNext() returns (active: bool, tuple: Row)
      requires Valid() && plan.op.MockScan?
      modifies Repr
      ensures Valid() && active == (old(Remaining()) != [])
      ensures active ==> old(Remaining()) == [tuple] + Remaining()
      ensures !active ==> Remaining() == []
      decreases plan, 0
    {
      if cursor == mock.size {
        return false, [];
      }
      if shuffledIdx == [] {
        tuple := mock.func(cursor);
      } else {
        tuple := mock.func(shuffledIdx[cursor]);
      }
      cursor := cursor + 1;
      active := true;
    }
  }

  /** Pull until exhausted, appending to the result set. */
  method PollExecutor(e: Executor, resultSet: seq<Row>) returns (out: seq<Row>)
    requires e.Valid()
    modifies e.Repr
    ensures e.Valid() && e.Remaining() == [] && out == resultSet + old(e.Remaining())
  {
    out := resultSet;
    var active, tuple := e.Next();
    while active
      invariant e.Valid()
      invariant out + (if active then [tuple] + e.Remaining() else []) == resultSet + old(e.Remaining())
      invariant !active ==> e.Remaining() == []
      decreases |e.Remaining()|, active
    {
      out := out + [tuple];
      active, tuple := e.Next();
    }
  }

  /** Mock tables known to the system, the shuffles drawn for them, and the rows they then denote. */
  ghost predicate MocksDenoted(p: Plan, mocks: map<string, MockTable>, orders: map<string, seq<nat>>, db: Db)
    requires Executable(p)
  {
    match p.op
    case Filter(_) => MocksDenoted(p.children[0], mocks, orders, db)
    case Projection(_) => MocksDenoted(p.children[0], mocks, orders, db)
    case ValuesList(_) => true
    case MockScan(t) =>
      && t in mocks && t in orders && t in db.mock && multiset(orders[t]) == multiset(Range(mocks[t].size))
      && db.mock[t] == MockRows(mocks[t], if mocks[t].shuffled then orders[t] else [])
  }

  method CreateExecutor(plan: Plan, mocks: map<string, MockTable>, orders: map<string, seq<nat>>, ghost db: Db)
    returns (e: Executor)
    requires Executable(plan) && MocksDenoted(plan, mocks, orders, db)
    ensures e.Valid() && fresh(e.Repr) && e.plan == plan && e.db == db
    decreases plan
  {
    if plan.children == [] {
      if plan.op.MockScan? {
        e := new Executor.Leaf(plan, mocks[plan.op.table], orders[plan.op.table], db);
      } else {
        e := new Executor.Leaf(plan, MockTable(i => [], 0, false), [], db);
      }
    } else {
      var c := CreateExecutor(plan.children[0], mocks, orders, db);
      e := new Executor.Over(plan, c);
    }
  }

  method Poll(e: Executor) returns (out: seq<Row>)
    requires e.Valid()
    modifies e.Repr
    ensures e.Valid() && out == old(e.Remaining())
  {
    ghost var rows := e.Remaining();
    out := PollExecutor(e, []);
    assert [] + rows == rows;
  }

  /** From any state of the executor. */
  method InitAndPoll(e: Executor) returns (out: seq<Row>)
    requires e.Valid()
    modifies e.Repr
    ensures e.Valid() && out == Denote(e.db, e.plan).rows
  {
    e.Init();
    out := Poll(e);
  }

  /** Executing a plan yields exactly the rows it denotes, and so does executing it again after another Init. */
  method Execute(plan: Plan, mocks: map<string, MockTable>, orders: map<string, seq<nat>>, ghost db: Db)
    returns (resultSet: seq<Row>, again: seq<Row>)
    requires Executable(plan) && MocksDenoted(plan, mocks, orders, db)
    ensures resultSet == Denote(db, plan).rows && again == Denote(db, plan).rows
  {
    var executor := CreateExecutor(plan, mocks, orders, db);
    resultSet := InitAndPoll(executor);
    again := InitAndPoll(executor);
  }

  /** A shuffled mock scan yields the rows of the unshuffled one, rearranged. */
  lemma ShuffleRearranges(m: MockTable, order: seq<nat>)
    requires multiset(order) == multiset(Range(m.size))
    ensures multiset(MockRows(m, order)) == multiset(MockRows(m, []))
  {
    assert |multiset(order)| == |multiset(Range(m.size))|;
    assert MockRows(m, order) == Images(m.func, order);
    assert MockRows(m, []) == Images(m.func, Range(m.size));
    ImagesRearranged(m.func, order, Range(m.size));
  }
}
