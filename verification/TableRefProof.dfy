/**
 The binder's names against the planner's: plans of table references call their columns as the binder enumerates them,
 and a name resolves exactly when one column can be meant in one way.
 */
module TableRefProof {
  import opened Values
  import opened Plans
  import opened TableRefs
  import Seqs
  import Strings

  // ---- the planner calls columns as the binder does ----

  /** Planning a subquery's SELECT yields one column for each name of its select list. */
  predicate ListMatches(q: Subquery) {
    q.plan.Ok? ==> |q.plan.value.schema| == |q.selectListNames|
  }

  predicate ListsMatch(t: TableRef, ctes: seq<Subquery>)
    requires InScope(t, ctes)
  {
    match t
    case CrossProduct(l, r) => ListsMatch(l, ctes) && ListsMatch(r, ctes)
    case Join(_, l, r, _) => ListsMatch(l, ctes) && ListsMatch(r, ctes)
    case SubqueryRef(q) => ListMatches(q)
    case CteRef(name, _) => ListMatches(FindCte(ctes, name).value)
    case _ => true
  }

  lemma {:induction false} ScanNames(name: string, s: Schema)
    ensures Named(ScanSchema(name, s)) == JoinAll(Prefixed(name, ColumnNames(s)))
  {
    if s != [] {
      ScanNames(name, s[1..]);
      var full := [name] + [s[0].name];
      assert full[1..] == [s[0].name];
      assert Strings.Join(full) == name + "." + s[0].name;
    }
  }

  lemma {:induction false} NamedSum(a: Schema, b: Schema)
    ensures Named(a + b) == Named(a) + Named(b)
  {
    if a == [] {
      assert a + b == b && [] + Named(b) == Named(b);
    } else {
      assert (a + b)[0] == a[0] && (a + b)[1..] == a[1..] + b;
      NamedSum(a[1..], b);
      assert [a[0].name] + (Named(a[1..]) + Named(b)) == [a[0].name] + Named(a[1..]) + Named(b);
    }
  }

  lemma {:induction false} JoinedSum(l: seq<Name>, r: seq<Name>)
    ensures JoinAll(l + r) == JoinAll(l) + JoinAll(r)
  {
    if l == [] {
      assert l + r == r && [] + JoinAll(r) == JoinAll(r);
    } else {
      assert (l + r)[0] == l[0] && (l + r)[1..] == l[1..] + r;
      JoinedSum(l[1..], r);
      var first := Strings.Join(l[0]);
      assert [first] + (JoinAll(l[1..]) + JoinAll(r)) == [first] + JoinAll(l[1..]) + JoinAll(r);
    }
  }

  lemma NamesOfSum(a: Schema, b: Schema, l: seq<Name>, r: seq<Name>)
    requires Named(a) == JoinAll(l) && Named(b) == JoinAll(r)
    ensures Named(a + b) == JoinAll(l + r)
  {
    NamedSum(a, b);
    JoinedSum(l, r);
  }

  /** For every nested table reference, the plan's column names are the names the binder enumerates, in order. */
  lemma {:induction false} PlanNamesAsBinder(t: TableRef, ctes: seq<Subquery>, tableNames: map<string, nat>)
    requires InScope(t, ctes) && ListsMatch(t, ctes)
    requires PlanTableRef(t, ctes, tableNames).Ok?
    ensures Named(PlanTableRef(t, ctes, tableNames).value.schema) == JoinAll(AllColumns(t, ctes))
  {
    match t
    case BaseTable(table, alias, schema) => ScanNames(BoundTableName(table, alias), schema);
    case CrossProduct(l, r) =>
      PlanNamesAsBinder(l, ctes, tableNames);
      PlanNamesAsBinder(r, ctes, tableNames);
      NamesOfSum(PlanTableRef(l, ctes, tableNames).value.schema, PlanTableRef(r, ctes, tableNames).value.schema,
                 AllColumns(l, ctes), AllColumns(r, ctes));
    case Join(_, l, r, _) =>
      PlanNamesAsBinder(l, ctes, tableNames);
      PlanNamesAsBinder(r, ctes, tableNames);
      NamesOfSum(PlanTableRef(l, ctes, tableNames).value.schema, PlanTableRef(r, ctes, tableNames).value.schema,
                 AllColumns(l, ctes), AllColumns(r, ctes));
    case SubqueryRef(q) => SubqueryNames(q, q.alias);
    case CteRef(name, alias) => SubqueryNames(FindCte(ctes, name).value, alias);
  }

  lemma SubqueryNames(q: Subquery, alias: string)
    requires ListMatches(q) && PlanSubquery(q, alias).Ok?
    ensures Named(PlanSubquery(q, alias).value.schema) == JoinAll(Prefixed(alias, q.selectListNames))
  {
    assert q.selectListNames[..|q.plan.value.schema|] == q.selectListNames;
  }

  // ---- what a name can mean ----

  function LowerAll(name: Name): (low: Name)
    ensures |low| == |name| && forall i :: 0 <= i < |name| ==> low[i] == Strings.Lower(name[i])
  {
    if name == [] then [] else [Strings.Lower(name[0])] + LowerAll(name[1..])
  }

  lemma SuffixLast(suffix: Name, full: Name, low: Name)
    requires |low| == |full| && forall i :: 0 <= i < |full| ==> low[i] == Strings.Lower(full[i])
    ensures MatchSuffix(suffix, full) <==> Seqs.LastAre(low, suffix)
  {
    var n := |full| - |suffix|;
    if n >= 0 {
      forall i | 0 <= i < |suffix| ensures suffix[i] == Strings.Lower(full[n + i]) <==> suffix[i] == low[n + i] {
        assert low[n + i] == Strings.Lower(full[n + i]);
      }
    }
  }

  /** The wanted parts match a name exactly when the name, in lower case, ends with them. */
  lemma SuffixMeans(suffix: Name, full: Name)
    ensures MatchSuffix(suffix, full) <==> Seqs.EndsWith(LowerAll(full), suffix)
  {
    SuffixLast(suffix, full, LowerAll(full));
    Seqs.PlaceByPlace(LowerAll(full), suffix);
  }

  /** In how many ways the wanted parts denote a column: by its last parts, and by its table's name and last parts. */
  function Ways(name: Name, wanted: Name): nat
    requires name != []
  {
    (if MatchSuffix(wanted, name[1..]) then 1 else 0)
    + (if |wanted| > 1 && wanted[0] == name[0] && MatchSuffix(wanted[1..], name[1..]) then 1 else 0)
  }

  predicate Whole(names: seq<Name>) {
    forall i :: 0 <= i < |names| ==> names[i] != []
  }

  function Total(names: seq<Name>, wanted: Name): nat
    requires Whole(names)
  {
    if names == [] then 0 else Ways(names[0], wanted) + Total(names[1..], wanted)
  }

  /** The first column the wanted parts denote. */
  function First(names: seq<Name>, wanted: Name): (i: nat)
    requires Whole(names)
    ensures i <= |names| && (i < |names| <==> Total(names, wanted) > 0)
    ensures i < |names| ==> Ways(names[i], wanted) > 0
  {
    if names == [] then 0 else if Ways(names[0], wanted) > 0 then 0 else 1 + First(names[1..], wanted)
  }

  /** Nothing, the one column under the name the answer carries for it, or an ambiguity. */
  function Verdict(all: seq<Name>, own: seq<Name>, wanted: Name): Result<Option<Name>>
    requires Whole(all) && |own| == |all|
  {
    var n := Total(all, wanted);
    if n == 0 then Ok(None) else if n == 1 then Ok(Some(own[First(all, wanted)])) else Throw
  }

  /** The columns as answers name them: those of a common table expression by its own alias. */
  function OwnColumns(t: TableRef, ctes: seq<Subquery>): (own: seq<Name>)
    requires InScope(t, ctes)
    ensures |own| == |AllColumns(t, ctes)| && Whole(own) && Whole(AllColumns(t, ctes))
  {
    match t
    case BaseTable(table, alias, schema) => Prefixed(BoundTableName(table, alias), ColumnNames(schema))
    case CrossProduct(l, r) => OwnColumns(l, ctes) + OwnColumns(r, ctes)
    case Join(_, l, r, _) => OwnColumns(l, ctes) + OwnColumns(r, ctes)
    case SubqueryRef(q) => Prefixed(q.alias, q.selectListNames)
    case CteRef(name, _) =>
      var q := FindCte(ctes, name).value;
      Prefixed(q.alias, q.selectListNames)
  }

  lemma {:induction false} TotalOfSum(a: seq<Name>, b: seq<Name>, wanted: Name)
    requires Whole(a) && Whole(b)
    ensures Total(a + b, wanted) == Total(a, wanted) + Total(b, wanted)
    ensures First(a + b, wanted) == if Total(a, wanted) > 0 then First(a, wanted) else |a| + First(b, wanted)
  {
    if a != [] {
      TotalOfSum(a[1..], b, wanted);
      assert (a + b)[1..] == a[1..] + b;
    } else {
      assert a + b == b;
    }
  }

  function Combine(x: Result<Option<Name>>, y: Result<Option<Name>>): Result<Option<Name>> {
    var a :- x;
    var b :- y;
    Either(a, b)
  }

  lemma VerdictOfSum(a: seq<Name>, oa: seq<Name>, b: seq<Name>, ob: seq<Name>, wanted: Name)
    requires Whole(a) && Whole(b) && |oa| == |a| && |ob| == |b|
    ensures Verdict(a + b, oa + ob, wanted) == Combine(Verdict(a, oa, wanted), Verdict(b, ob, wanted))
  {
    TotalOfSum(a, b, wanted);
  }

  // ---- one table ----

  lemma {:induction false} TotalOfTable(prefix: string, names: seq<Name>, wanted: Name)
    ensures Total(Prefixed(prefix, names), wanted) ==
            |Matching(names, wanted)|
            + if |wanted| > 1 && wanted[0] == prefix then |Matching(names, wanted[1..])| else 0
  {
    if names != [] {
      TotalOfTable(prefix, names[1..], wanted);
      assert Prefixed(prefix, names)[1..] == Prefixed(prefix, names[1..]);
      assert ([prefix] + names[0])[1..] == names[0];
    }
  }

  /** A name with a single meaning matches at the place that meaning is found. */
  lemma {:induction false} SingleMatch(prefix: string, names: seq<Name>, wanted: Name)
    requires Total(Prefixed(prefix, names), wanted) == 1
    ensures var i := First(Prefixed(prefix, names), wanted);
            && i < |names|
            && (Matching(names, wanted) != [] ==> Matching(names, wanted) == [names[i]])
            && (|wanted| > 1 && wanted[0] == prefix && Matching(names, wanted[1..]) != [] ==>
                  Matching(names, wanted[1..]) == [names[i]])
  {
    TotalOfTable(prefix, names, wanted);
    TotalOfTable(prefix, names[1..], wanted);
    assert Prefixed(prefix, names)[1..] == Prefixed(prefix, names[1..]);
    assert ([prefix] + names[0])[1..] == names[0];
    if Ways(Prefixed(prefix, names)[0], wanted) == 0 { SingleMatch(prefix, names[1..], wanted); }
  }

  lemma SubqueryVerdict(q: Subquery, alias: string, wanted: Name)
    ensures ResolveInSubquery(q, alias, wanted) ==
            Verdict(Prefixed(alias, q.selectListNames), Prefixed(q.alias, q.selectListNames), wanted)
  {
    TotalOfTable(alias, q.selectListNames, wanted);
    if Total(Prefixed(alias, q.selectListNames), wanted) == 1 { SingleMatch(alias, q.selectListNames, wanted); }
  }

  lemma {:induction false} TooLong(s: Schema, wanted: Name)
    requires |wanted| > 1
    ensures Matching(ColumnNames(s), wanted) == []
  {
    if s != [] { TooLong(s[1..], wanted); }
  }

  lemma BaseVerdict(name: string, s: Schema, wanted: Name)
    requires wanted != []
    ensures ResolveInBase(name, s, wanted) ==
            Verdict(Prefixed(name, ColumnNames(s)), Prefixed(name, ColumnNames(s)), wanted)
  {
    if |wanted| > 1 { TooLong(s, wanted); }
    if |wanted| > 2 { TooLong(s, wanted[1..]); }
    SubqueryVerdict(Subquery(name, ColumnNames(s), Throw), name, wanted);
  }

  /**
   Resolution, for every nested table reference: a name is found when it denotes exactly one of the enumerated columns
   in exactly one way, is not found when it denotes none, and is rejected as ambiguous otherwise.
   */
  lemma {:induction false} ResolveExactly(t: TableRef, ctes: seq<Subquery>, wanted: Name)
    requires InScope(t, ctes) && wanted != []
    ensures Resolve(t, ctes, wanted) == Verdict(AllColumns(t, ctes), OwnColumns(t, ctes), wanted)
  {
    match t
    case BaseTable(table, alias, schema) => BaseVerdict(BoundTableName(table, alias), schema, wanted);
    case CrossProduct(l, r) =>
      ResolveExactly(l, ctes, wanted);
      ResolveExactly(r, ctes, wanted);
      VerdictOfSum(AllColumns(l, ctes), OwnColumns(l, ctes), AllColumns(r, ctes), OwnColumns(r, ctes), wanted);
    case Join(_, l, r, _) =>
      ResolveExactly(l, ctes, wanted);
      ResolveExactly(r, ctes, wanted);
      VerdictOfSum(AllColumns(l, ctes), OwnColumns(l, ctes), AllColumns(r, ctes), OwnColumns(r, ctes), wanted);
    case SubqueryRef(q) => SubqueryVerdict(q, q.alias, wanted);
    case CteRef(name, alias) => SubqueryVerdict(FindCte(ctes, name).value, alias, wanted);
  }
}
