/**
 Table references: the columns the binder enumerates for them, how it resolves a column name against them, and the
 plans the planner makes of them.
 */
module TableRefs {
  import opened Values
  import opened Expressions
  import opened Plans
  import opened BoundExprs
  import Strings

  type Name = seq<string>

  /** A subquery or common table expression, with the outcome of planning its SELECT. */
  datatype Subquery = Subquery(alias: string, selectListNames: seq<Name>, plan: Result<Plan>)

  datatype TableRef =
    | BaseTable(table: string, tableAlias: Option<string>, schema: Schema)
    | CrossProduct(left: TableRef, right: TableRef)
    | Join(joinType: JoinType, left: TableRef, right: TableRef, condition: BoundExpr)
    | SubqueryRef(query: Subquery)
    | CteRef(cteName: string, alias: string)

  function BoundTableName(table: string, alias: Option<string>): string {
    match alias
    case Some(a) => a
    case None => table
  }

  /** The first common table expression of that name. */
  function FindCte(ctes: seq<Subquery>, name: string): Option<Subquery> {
    if ctes == [] then None else if ctes[0].alias == name then Some(ctes[0]) else FindCte(ctes[1..], name)
  }

  lemma {:induction false} FindCteFirst(ctes: seq<Subquery>, name: string, i: nat)
    requires i < |ctes| && ctes[i].alias == name && forall j :: 0 <= j < i ==> ctes[j].alias != name
    ensures FindCte(ctes, name) == Some(ctes[i])
  {
    if i > 0 { FindCteFirst(ctes[1..], name, i - 1); }
  }

  lemma {:induction false} FindCteNone(ctes: seq<Subquery>, name: string)
    ensures FindCte(ctes, name).None? <==> forall j :: 0 <= j < |ctes| ==> ctes[j].alias != name
  {
    if ctes != [] { FindCteNone(ctes[1..], name); }
  }

  /** The binder makes a CTE reference only for a CTE it has found. */
  predicate InScope(t: TableRef, ctes: seq<Subquery>) {
    match t
    case CrossProduct(l, r) => InScope(l, ctes) && InScope(r, ctes)
    case Join(_, l, r, _) => InScope(l, ctes) && InScope(r, ctes)
    case CteRef(name, _) => FindCte(ctes, name).Some?
    case _ => true
  }

  // ---- the columns of a scope ----

  function ColumnNames(s: Schema): (ns: seq<Name>)
    ensures |ns| == |s| && forall i :: 0 <= i < |s| ==> ns[i] == [s[i].name]
  {
    if s == [] then [] else [[s[0].name]] + ColumnNames(s[1..])
  }

  function Prefixed(prefix: string, names: seq<Name>): (ns: seq<Name>)
    ensures |ns| == |names| && forall i :: 0 <= i < |names| ==> ns[i] == [prefix] + names[i]
  {
    if names == [] then [] else [[prefix] + names[0]] + Prefixed(prefix, names[1..])
  }

  /** The full names `SELECT *` expands to, in order. */
  function AllColumns(t: TableRef, ctes: seq<Subquery>): seq<Name>
    requires InScope(t, ctes)
  {
    match t
    case BaseTable(table, alias, schema) => Prefixed(BoundTableName(table, alias), ColumnNames(schema))
    case CrossProduct(l, r) => AllColumns(l, ctes) + AllColumns(r, ctes)
    case Join(_, l, r, _) => AllColumns(l, ctes) + AllColumns(r, ctes)
    case SubqueryRef(q) => Prefixed(q.alias, q.selectListNames)
    case CteRef(name, alias) => Prefixed(alias, FindCte(ctes, name).value.selectListNames)
  }

  // ---- resolution ----

  /** The wanted parts are the last parts of the full name, in lower case. */
  predicate MatchSuffix(suffix: Name, full: Name) {
    && |suffix| <= |full|
    && forall i :: 0 <= i < |suffix| ==> suffix[i] == Strings.Lower(full[|full| - |suffix| + i])
  }

  function Matching(names: seq<Name>, wanted: Name): seq<Name> {
    if names == [] then []
    else (if MatchSuffix(wanted, names[0]) then [names[0]] else []) + Matching(names[1..], wanted)
  }

  /** Nothing, the one candidate, or an ambiguity. */
  function OnlyOne(candidates: seq<Name>): Result<Option<Name>> {
    if candidates == [] then Ok(None) else if |candidates| == 1 then Ok(Some(candidates[0])) else Throw
  }

  method ResolveFromSelectList(names: seq<Name>, wanted: Name) returns (r: Result<Option<Name>>)
    ensures r == OnlyOne(Matching(names, wanted))
  {
    var found: Option<Name> := None;
    for i := 0 to |names|
      invariant found.None? ==> Matching(names, wanted) == Matching(names[i..], wanted)
      invariant found.Some? ==> Matching(names, wanted) == [found.value] + Matching(names[i..], wanted)
    {
      assert names[i..][1..] == names[i + 1..];
      if MatchSuffix(wanted, names[i]) {
        if found.Some? {
          return Throw;
        }
        found := Some(names[i]);
      }
    }
    return Ok(found);
  }

  lemma ColumnMatches(column: string, wanted: Name)
    requires |wanted| == 1
    ensures MatchSuffix(wanted, [column]) <==> Strings.Lower(column) == wanted[0]
  {
    assert [column][0] == column;
  }

  function ResolveFromSchema(s: Schema, wanted: Name): Result<Option<Name>> {
    if |wanted| != 1 then Ok(None) else OnlyOne(Matching(ColumnNames(s), wanted))
  }

  method ResolveColumnRefFromSchema(s: Schema, wanted: Name) returns (r: Result<Option<Name>>)
    ensures r == ResolveFromSchema(s, wanted)
  {
    if |wanted| != 1 {
      return Ok(None);
    }
    var found: Option<Name> := None;
    ghost var names := ColumnNames(s);
    for i := 0 to |s|
      invariant found.None? ==> Matching(names, wanted) == Matching(names[i..], wanted)
      invariant found.Some? ==> Matching(names, wanted) == [found.value] + Matching(names[i..], wanted)
    {
      assert names[i..][1..] == names[i + 1..];
      ColumnMatches(s[i].name, wanted);
      if Strings.Lower(s[i].name) == wanted[0] {
        if found.Some? {
          return Throw;
        }
        found := Some([s[i].name]);
      }
    }
    return Ok(found);
  }

  function Prepend(r: Option<Name>, prefix: string): Option<Name> {
    match r
    case Some(n) => Some([prefix] + n)
    case None => None
  }

  /** Two attempts that may not both succeed. */
  function Either(a: Option<Name>, b: Option<Name>): Result<Option<Name>> {
    if a.Some? && b.Some? then Throw else if a.Some? then Ok(a) else Ok(b)
  }

  function ResolveInBase(name: string, s: Schema, wanted: Name): Result<Option<Name>> {
    var direct :- ResolveFromSchema(s, wanted);
    var stripped :- if |wanted| > 1 && wanted[0] == name then ResolveFromSchema(s, wanted[1..]) else Ok(None);
    Either(Prepend(stripped, name), Prepend(direct, name))
  }

  /** `alias` is what a qualified name must start with; the answer carries the subquery's own alias. */
  function ResolveInSubquery(q: Subquery, alias: string, wanted: Name): Result<Option<Name>> {
    var direct :- OnlyOne(Matching(q.selectListNames, wanted));
    var stripped :- if |wanted| > 1 && wanted[0] == alias then OnlyOne(Matching(q.selectListNames, wanted[1..]))
                    else Ok(None);
    Either(Prepend(stripped, q.alias), Prepend(direct, q.alias))
  }

  function Resolve(t: TableRef, ctes: seq<Subquery>, wanted: Name): Result<Option<Name>>
    requires InScope(t, ctes)
  {
    match t
    case BaseTable(table, alias, schema) => ResolveInBase(BoundTableName(table, alias), schema, wanted)
    case CrossProduct(l, r) =>
      var a :- Resolve(l, ctes, wanted);
      var b :- Resolve(r, ctes, wanted);
      Either(a, b)
    case Join(_, l, r, _) =>
      var a :- Resolve(l, ctes, wanted);
      var b :- Resolve(r, ctes, wanted);
      Either(a, b)
    case SubqueryRef(q) => ResolveInSubquery(q, q.alias, wanted)
    case CteRef(name, alias) => ResolveInSubquery(FindCte(ctes, name).value, alias, wanted)
  }

  // ---- planning ----

  function JoinAll(names: seq<Name>): (ss: seq<string>)
    ensures |ss| == |names| && forall i :: 0 <= i < |names| ==> ss[i] == Strings.Join(names[i])
  {
    if names == [] then [] else [Strings.Join(names[0])] + JoinAll(names[1..])
  }

  function Named(s: Schema): (ss: seq<string>)
    ensures |ss| == |s| && forall i :: 0 <= i < |s| ==> ss[i] == s[i].name
  {
    if s == [] then [] else [s[0].name] + Named(s[1..])
  }

  /** Scanned columns are called `table.column`. */
  method InferScanSchema(table: string, alias: Option<string>, s: Schema) returns (out: Schema)
    ensures out == ScanSchema(BoundTableName(table, alias), s)
  {
    out := [];
    for i := 0 to |s|
      invariant out + ScanSchema(BoundTableName(table, alias), s[i..]) == ScanSchema(BoundTableName(table, alias), s)
    {
      assert s[i..][1..] == s[i + 1..];
      out := out + [Column(BoundTableName(table, alias) + "." + s[i].name, s[i].ty)];
    }
    assert s[|s|..] == [];
  }

  function ScanSchema(name: string, s: Schema): Schema {
    if s == [] then [] else [Column(name + "." + s[0].name, s[0].ty)] + ScanSchema(name, s[1..])
  }

  /** The left columns, then the right ones. */
  method InferJoinSchema(left: Schema, right: Schema) returns (out: Schema)
    ensures out == left + right
  {
    out := [];
    for i := 0 to |left|
      invariant out == left[..i]
    {
      out := out + [left[i]];
    }
    for i := 0 to |right|
      invariant out == left + right[..i]
    {
      out := out + [right[i]];
    }
  }

  function Renamed(s: Schema, names: seq<string>): (out: Schema)
    requires |names| == |s|
    ensures |out| == |s| && forall i :: 0 <= i < |s| ==> out[i] == Column(names[i], s[i].ty)
  {
    if s == [] then [] else [Column(names[0], s[0].ty)] + Renamed(s[1..], names[1..])
  }

  method RenameSchema(s: Schema, names: seq<string>) returns (r: Result<Schema>)
    ensures r == if |names| == |s| then Ok(Renamed(s, names)) else Throw
  {
    if |names| != |s| {
      return Throw;
    }
    var out: Schema := [];
    for i := 0 to |s|
      invariant |out| == i && forall j :: 0 <= j < i ==> out[j] == Column(names[j], s[j].ty)
    {
      out := out + [Column(names[i], s[i].ty)];
    }
    assert out == Renamed(s, names);
    return Ok(out);
  }

  function ColumnRefs(s: Schema, from: nat): (es: seq<Expr>)
    ensures |es| == |s| && forall i :: 0 <= i < |s| ==> es[i] == Col(0, from + i, s[i].ty)
    decreases |s|
  {
    if s == [] then [] else [Col(0, from, s[0].ty)] + ColumnRefs(s[1..], from + 1)
  }

  /** A projection that only renames: `alias.name` for each column of the subquery. */
  function PlanSubquery(q: Subquery, alias: string): Result<Plan> {
    var child :- q.plan;
    if |q.selectListNames| < |child.schema| then Throw
    else Ok(Plan(Projection(ColumnRefs(child.schema, 0)),
                 Renamed(child.schema, JoinAll(Prefixed(alias, q.selectListNames[..|child.schema|]))), [child]))
  }

  /** The loop over the subquery's columns: a reference to each, and its new name. */
  method RenamedColumns(s: Schema, alias: string, names: seq<Name>) returns (exprs: seq<Expr>, outNames: seq<string>)
    requires |s| <= |names|
    ensures exprs == ColumnRefs(s, 0) && outNames == JoinAll(Prefixed(alias, names[..|s|]))
  {
    exprs, outNames := [], [];
    for idx := 0 to |s|
      invariant |exprs| == |outNames| == idx
      invariant forall j :: 0 <= j < idx ==> exprs[j] == Col(0, j, s[j].ty)
      invariant forall j :: 0 <= j < idx ==> outNames[j] == Strings.Join([alias] + names[j])
    {
      exprs := exprs + [Col(0, idx, s[idx].ty)];
      outNames := outNames + [Strings.Join([alias] + names[idx])];
    }
  }

  predicate StartsWith(s: string, prefix: string) {
    prefix <= s
  }

  function PlanTableRef(t: TableRef, ctes: seq<Subquery>, tableNames: map<string, nat>): Result<Plan> {
    match t
    case BaseTable(table, alias, schema) =>
      var out := ScanSchema(BoundTableName(table, alias), schema);
      if table !in tableNames then Throw
      else if StartsWith(table, "__") then
        if StartsWith(table, "__mock") then Ok(Plan(MockScan(table), out, [])) else Throw
      else Ok(Plan(SeqScan(tableNames[table], table, None), out, []))
    case CrossProduct(l, r) =>
      var a :- PlanTableRef(l, ctes, tableNames);
      var b :- PlanTableRef(r, ctes, tableNames);
      Ok(Plan(Nlj(Const(BoolV(true)), Inner), a.schema + b.schema, [a, b]))
    case Join(joinType, l, r, condition) =>
      var a :- PlanTableRef(l, ctes, tableNames);
      var b :- PlanTableRef(r, ctes, tableNames);
      var c :- PlanJoinExpr(condition, a.schema, b.schema);
      Ok(Plan(Nlj(c, joinType), a.schema + b.schema, [a, b]))
    case SubqueryRef(q) => PlanSubquery(q, q.alias)
    case CteRef(name, alias) =>
      match FindCte(ctes, name)
      case Some(q) => PlanSubquery(q, alias)
      case None => Throw
  }
}
