/** From the name the binder resolves to the column the planner finds, and where the two part. */
module ResolvedColumns {
  import opened Values
  import opened Expressions
  import opened Plans
  import opened PlanFacts
  import opened BoundExprs
  import opened TableRefs
  import opened TableRefProof
  import Optimizer
  import OptimizerProof
  import Strings

  // ---- dotted names ----

  /** No part of the name holds a dot; an unquoted SQL name never does. */
  predicate Plain(name: Name) {
    name != [] && forall i :: 0 <= i < |name| ==> '.' !in name[i]
  }

  predicate AllPlain(names: seq<Name>) {
    forall i :: 0 <= i < |names| ==> Plain(names[i])
  }

  lemma JoinParts(name: Name)
    requires |name| > 1
    ensures var s, k := Strings.Join(name), |name[0]|;
            |s| > k && s[..k] == name[0] && s[k] == '.' && s[k + 1..] == Strings.Join(name[1..])
  {
    var s := name[0] + "." + Strings.Join(name[1..]);
    assert Strings.Join(name) == s;
  }

  /** Names without dots in their parts are told apart by their dotted form. */
  lemma {:induction false} JoinInjective(a: Name, b: Name)
    requires Plain(a) && Plain(b) && Strings.Join(a) == Strings.Join(b)
    ensures a == b
    decreases |a|
  {
    if |a| > 1 { JoinParts(a); }
    if |b| > 1 { JoinParts(b); }
    if |a| > 1 && |b| > 1 {
      JoinInjective(a[1..], b[1..]);
      assert a == [a[0]] + a[1..] && b == [b[0]] + b[1..];
    } else if |a| == 1 && |b| == 1 {
      assert a == [a[0]] && b == [b[0]];
    }
  }

  // ---- the one column meant ----

  lemma {:induction false} AtMostTotal(names: seq<Name>, wanted: Name, i: nat)
    requires Whole(names) && i < |names|
    ensures Ways(names[i], wanted) <= Total(names, wanted)
  {
    if i > 0 { AtMostTotal(names[1..], wanted, i - 1); }
  }

  lemma {:induction false} OnlyMeaning(names: seq<Name>, wanted: Name, i: nat)
    requires Whole(names) && Total(names, wanted) == 1 && i < |names| && Ways(names[i], wanted) > 0
    ensures i == First(names, wanted)
  {
    if Ways(names[0], wanted) == 0 {
      OnlyMeaning(names[1..], wanted, i - 1);
    } else if i > 0 {
      AtMostTotal(names[1..], wanted, i - 1);
    }
  }

  lemma {:induction false} OneOfTheName(s: Schema, name: string, i: nat)
    requires i < |s| && s[i].name == name && forall j :: 0 <= j < |s| && j != i ==> s[j].name != name
    ensures CountName(s, name) == 1 && FirstNamed(s, name) == i
  {
    if i > 0 {
      OneOfTheName(s[1..], name, i - 1);
    } else {
      NoneOfTheName(s[1..], name);
    }
  }

  lemma {:induction false} NoneOfTheName(s: Schema, name: string)
    requires forall j :: 0 <= j < |s| ==> s[j].name != name
    ensures CountName(s, name) == 0
  {
    if s != [] { NoneOfTheName(s[1..], name); }
  }

  /** Column `i` of the scope comes from a common table expression under an alias other than its name. */
  predicate FromAliasedCte(t: TableRef, ctes: seq<Subquery>, i: nat)
    requires InScope(t, ctes) && i < |AllColumns(t, ctes)|
  {
    match t
    case CrossProduct(l, r) =>
      var n := |AllColumns(l, ctes)|;
      if i < n then FromAliasedCte(l, ctes, i) else FromAliasedCte(r, ctes, i - n)
    case Join(_, l, r, _) =>
      var n := |AllColumns(l, ctes)|;
      if i < n then FromAliasedCte(l, ctes, i) else FromAliasedCte(r, ctes, i - n)
    case CteRef(name, alias) => alias != name
    case _ => false
  }

  lemma {:induction false} CteBearsName(ctes: seq<Subquery>, name: string)
    requires FindCte(ctes, name).Some?
    ensures FindCte(ctes, name).value.alias == name
  {
    if ctes[0].alias != name { CteBearsName(ctes[1..], name); }
  }

  lemma {:induction false} OwnNameUnlessAliased(t: TableRef, ctes: seq<Subquery>, i: nat)
    requires InScope(t, ctes) && i < |AllColumns(t, ctes)|
    ensures OwnColumns(t, ctes)[i] == AllColumns(t, ctes)[i] <==> !FromAliasedCte(t, ctes, i)
  {
    match t
    case CrossProduct(l, r) =>
      var n := |AllColumns(l, ctes)|;
      if i < n { OwnNameUnlessAliased(l, ctes, i); } else { OwnNameUnlessAliased(r, ctes, i - n); }
    case Join(_, l, r, _) =>
      var n := |AllColumns(l, ctes)|;
      if i < n { OwnNameUnlessAliased(l, ctes, i); } else { OwnNameUnlessAliased(r, ctes, i - n); }
    case CteRef(name, alias) =>
      CteBearsName(ctes, name);
      var own, all := OwnColumns(t, ctes)[i], AllColumns(t, ctes)[i];
      assert own[0] == name && all[0] == alias && own[1..] == all[1..];
      if alias == name { assert own == [own[0]] + own[1..] && all == [all[0]] + all[1..]; }
    case _ =>
  }

  /** Column `i` alone is called by the text. */
  predicate OnlyBearer(names: seq<Name>, text: string, i: nat) {
    forall j :: 0 <= j < |names| ==> (Strings.Join(names[j]) == text <==> j == i)
  }

  lemma {:induction false} CountOnce(s: Schema, name: string, i: nat)
    requires CountName(s, name) == 1 && i < |s| && s[i].name == name
    ensures i == FirstNamed(s, name)
  {
    if s[0].name == name {
      if i > 0 { CountSome(s[1..], name, i - 1); }
    } else {
      CountOnce(s[1..], name, i - 1);
    }
  }

  lemma {:induction false} CountSome(s: Schema, name: string, i: nat)
    requires i < |s| && s[i].name == name
    ensures CountName(s, name) > 0
  {
    if i > 0 { CountSome(s[1..], name, i - 1); }
  }

  /** The planner finds column `i` under a text exactly when that column alone is called by it. */
  lemma PlanColumnExactly(s: Schema, names: seq<Name>, text: string, i: nat)
    requires Named(s) == JoinAll(names) && i < |s|
    ensures PlanColumn(text, s) == Ok(Col(0, i, s[i].ty)) <==> OnlyBearer(names, text, i)
  {
    assert |Named(s)| == |JoinAll(names)|;
    assert forall j :: 0 <= j < |s| ==> s[j].name == Named(s)[j] == JoinAll(names)[j] == Strings.Join(names[j]);
    FirstNamedFound(s, text);
    if OnlyBearer(names, text, i) {
      OneOfTheName(s, text, i);
    } else if PlanColumn(text, s) == Ok(Col(0, i, s[i].ty)) {
      var j :| 0 <= j < |names| && !(Strings.Join(names[j]) == text <==> j == i);
      if j != i { CountOnce(s, text, j); }
    }
  }

  /** Between names without dots, the resolved name is the bearer's alone exactly unless its CTE goes by an alias. */
  lemma PlainBearer(t: TableRef, ctes: seq<Subquery>, wanted: Name)
    requires InScope(t, ctes) && AllPlain(AllColumns(t, ctes)) && AllPlain(OwnColumns(t, ctes))
    requires Total(AllColumns(t, ctes), wanted) == 1
    ensures var i := First(AllColumns(t, ctes), wanted);
            && OnlyBearer(AllColumns(t, ctes), Strings.Join(AllColumns(t, ctes)[i]), i)
            && (Strings.Join(OwnColumns(t, ctes)[i]) == Strings.Join(AllColumns(t, ctes)[i])
                <==> !FromAliasedCte(t, ctes, i))
  {
    var all, own := AllColumns(t, ctes), OwnColumns(t, ctes);
    var i := First(all, wanted);
    OwnNameUnlessAliased(t, ctes, i);
    if Strings.Join(own[i]) == Strings.Join(all[i]) { JoinInjective(own[i], all[i]); }
    forall j | 0 <= j < |all| && Strings.Join(all[j]) == Strings.Join(all[i]) ensures j == i {
      JoinInjective(all[j], all[i]);
      OnlyMeaning(all, wanted, j);
    }
  }

  /**
   For every nested table reference and every name the binder resolves in it, the planner finds the column the binder
   meant exactly when that column alone is called by the resolved name, dots included; and between names without dots,
   exactly when it does not come from a common table expression under another alias.
   */
  lemma ResolvedColumnPlanned(t: TableRef, ctes: seq<Subquery>, tableNames: map<string, nat>, wanted: Name)
    requires InScope(t, ctes) && ListsMatch(t, ctes) && wanted != []
    requires PlanTableRef(t, ctes, tableNames).Ok?
    requires Resolve(t, ctes, wanted).Ok? && Resolve(t, ctes, wanted).value.Some?
    ensures var s := PlanTableRef(t, ctes, tableNames).value.schema;
            var all, own := AllColumns(t, ctes), OwnColumns(t, ctes);
            var i := First(all, wanted);
            var text := Strings.Join(Resolve(t, ctes, wanted).value.value);
            && i < |all| == |s|
            && (PlanColumn(text, s) == Ok(Col(0, i, s[i].ty)) <==> OnlyBearer(all, text, i))
            && (AllPlain(all) && AllPlain(own) ==> (OnlyBearer(all, text, i) <==> !FromAliasedCte(t, ctes, i)))
  {
    var s, all := PlanTableRef(t, ctes, tableNames).value.schema, AllColumns(t, ctes);
    PlanNamesAsBinder(t, ctes, tableNames);
    ResolveExactly(t, ctes, wanted);
    var i := First(all, wanted);
    assert |Named(s)| == |JoinAll(all)|;
    PlanColumnExactly(s, all, Strings.Join(OwnColumns(t, ctes)[i]), i);
    if AllPlain(all) && AllPlain(OwnColumns(t, ctes)) { PlainBearer(t, ctes, wanted); }
  }

  // ---- join conditions ----

  /** Column `i` of the joined row, as a column of the child it comes from. */
  function SideColumn(left: Schema, right: Schema, i: nat): Expr
    requires i < |left| + |right|
  {
    if i < |left| then Col(0, i, left[i].ty) else Col(1, i - |left|, right[i - |left|].ty)
  }

  /** Column `i` is called by the text, and any other so called comes after it on the same side of `n`. */
  predicate SideBearer<T(==)>(texts: seq<T>, text: T, i: nat, n: nat) {
    && i < |texts| && texts[i] == text
    && forall j :: 0 <= j < |texts| && texts[j] == text ==> i <= j && (i < n <==> j < n)
  }

  /** The same, said of each side apart. */
  predicate FoundIn<T(==)>(side: seq<T>, other: seq<T>, text: T, i: nat) {
    && i < |side| && side[i] == text && (forall j :: 0 <= j < i ==> side[j] != text)
    && forall j :: 0 <= j < |other| ==> other[j] != text
  }

  lemma SidesApart<T>(l: seq<T>, r: seq<T>, text: T, i: nat)
    requires i < |l| + |r|
    ensures SideBearer(l + r, text, i, |l|) <==>
            if i < |l| then FoundIn(l, r, text, i) else FoundIn(r, l, text, i - |l|)
  {
    var texts := l + r;
    assert forall j :: 0 <= j < |l| ==> l[j] == texts[j];
    assert forall j :: 0 <= j < |r| ==> r[j] == texts[|l| + j];
    assert forall j :: |l| <= j < |texts| ==> texts[j] == r[j - |l|];
  }

  lemma PlanJoinSide(left: Schema, right: Schema, name: string, i: nat)
    requires i < |left| + |right|
    ensures PlanJoinColumn(name, left, right) == Ok(SideColumn(left, right, i)) <==>
            if i < |left| then FoundIn(Named(left), Named(right), name, i)
            else FoundIn(Named(right), Named(left), name, i - |left|)
  {
    FirstNamedFound(left, name);
    FirstNamedFound(right, name);
  }

  /** Of two children, the planner finds column `i` of the joined row exactly when it bears the text on its side. */
  lemma PlanJoinColumnExactly(left: Schema, right: Schema, text: string, i: nat)
    requires i < |left| + |right|
    ensures PlanJoinColumn(text, left, right) == Ok(SideColumn(left, right, i))
            <==> SideBearer(Named(left + right), text, i, |left|)
  {
    NamedSum(left, right);
    SidesApart(Named(left), Named(right), text, i);
    PlanJoinSide(left, right, text, i);
  }

  lemma SideOfOnly<T>(texts: seq<T>, text: T, i: nat, n: nat)
    requires i < |texts| && forall j :: 0 <= j < |texts| && texts[j] == texts[i] ==> j == i
    ensures SideBearer(texts, text, i, n) <==> text == texts[i]
  {}

  lemma SideOfOnlyBearer(names: seq<Name>, text: string, i: nat, n: nat)
    requires i < |names| && OnlyBearer(names, Strings.Join(names[i]), i)
    ensures SideBearer(JoinAll(names), text, i, n) <==> text == Strings.Join(names[i])
  {
    var texts := JoinAll(names);
    forall j | 0 <= j < |texts| && texts[j] == texts[i] ensures j == i {
      assert texts[j] == Strings.Join(names[j]) && texts[i] == Strings.Join(names[i]);
    }
    SideOfOnly(texts, text, i, n);
  }

  lemma PlainSide(t: TableRef, ctes: seq<Subquery>, wanted: Name, n: nat)
    requires InScope(t, ctes) && AllPlain(AllColumns(t, ctes)) && AllPlain(OwnColumns(t, ctes))
    requires Total(AllColumns(t, ctes), wanted) == 1
    ensures var i := First(AllColumns(t, ctes), wanted);
            SideBearer(JoinAll(AllColumns(t, ctes)), Strings.Join(OwnColumns(t, ctes)[i]), i, n)
            <==> !FromAliasedCte(t, ctes, i)
  {
    var all, own := AllColumns(t, ctes), OwnColumns(t, ctes);
    var i := First(all, wanted);
    PlainBearer(t, ctes, wanted);
    SideOfOnlyBearer(all, Strings.Join(own[i]), i, n);
  }

  /** The names of a join's two plans, side by side. */
  lemma JoinNames(t: TableRef, ctes: seq<Subquery>, tableNames: map<string, nat>)
    requires t.Join? && InScope(t, ctes) && ListsMatch(t, ctes)
    requires PlanTableRef(t.left, ctes, tableNames).Ok? && PlanTableRef(t.right, ctes, tableNames).Ok?
    ensures var l := PlanTableRef(t.left, ctes, tableNames).value.schema;
            var r := PlanTableRef(t.right, ctes, tableNames).value.schema;
            Named(l + r) == JoinAll(AllColumns(t, ctes)) && |l| + |r| == |AllColumns(t, ctes)|
  {
    var l := PlanTableRef(t.left, ctes, tableNames).value.schema;
    var r := PlanTableRef(t.right, ctes, tableNames).value.schema;
    PlanNamesAsBinder(t.left, ctes, tableNames);
    PlanNamesAsBinder(t.right, ctes, tableNames);
    NamesOfSum(l, r, AllColumns(t.left, ctes), AllColumns(t.right, ctes));
    assert |Named(l + r)| == |JoinAll(AllColumns(t, ctes))|;
  }

  /**
   The same for the columns of a join condition, which the binder resolves in the join and the planner looks for in its
   two sides.
   */
  lemma JoinConditionColumnPlanned(t: TableRef, ctes: seq<Subquery>, tableNames: map<string, nat>, wanted: Name)
    requires t.Join? && InScope(t, ctes) && ListsMatch(t, ctes) && wanted != []
    requires PlanTableRef(t.left, ctes, tableNames).Ok? && PlanTableRef(t.right, ctes, tableNames).Ok?
    requires Resolve(t, ctes, wanted).Ok? && Resolve(t, ctes, wanted).value.Some?
    ensures var l := PlanTableRef(t.left, ctes, tableNames).value.schema;
            var r := PlanTableRef(t.right, ctes, tableNames).value.schema;
            var all, own := AllColumns(t, ctes), OwnColumns(t, ctes);
            var i := First(all, wanted);
            var text := Strings.Join(Resolve(t, ctes, wanted).value.value);
            && i < |all| == |l| + |r|
            && (PlanJoinColumn(text, l, r) == Ok(SideColumn(l, r, i)) <==> SideBearer(JoinAll(all), text, i, |l|))
            && (AllPlain(all) && AllPlain(own) ==>
                  (SideBearer(JoinAll(all), text, i, |l|) <==> !FromAliasedCte(t, ctes, i)))
  {
    var l := PlanTableRef(t.left, ctes, tableNames).value.schema;
    var r := PlanTableRef(t.right, ctes, tableNames).value.schema;
    JoinNames(t, ctes, tableNames);
    ResolveExactly(t, ctes, wanted);
    var i := First(AllColumns(t, ctes), wanted);
    PlanJoinColumnExactly(l, r, Strings.Join(OwnColumns(t, ctes)[i]), i);
    if AllPlain(AllColumns(t, ctes)) && AllPlain(OwnColumns(t, ctes)) { PlainSide(t, ctes, wanted, |l|); }
  }

  // ---- a table under an alias ----

  /** `FROM table AS a`: its column is found under `a` and by itself, and not under the table's own name. */
  lemma AliasHidesTable(table: string, a: string, c: Column)
    requires a != table
    ensures var t, column := BaseTable(table, Some(a), [c]), Strings.Lower(c.name);
            && Resolve(t, [], [a, column]) == Ok(Some([a, c.name]))
            && Resolve(t, [], [column]) == Ok(Some([a, c.name]))
            && Resolve(t, [], [table, column]) == Ok(None)
  {
    var column := Strings.Lower(c.name);
    OnePart(a, c, [column]);
    TwoParts(a, c, [a, column]);
    TwoParts(a, c, [table, column]);
  }

  lemma OnePart(name: string, c: Column, wanted: Name)
    requires |wanted| == 1 && wanted[0] == Strings.Lower(c.name)
    ensures ResolveFromSchema([c], wanted) == Ok(Some([c.name]))
    ensures ResolveInBase(name, [c], wanted) == Ok(Some([name, c.name]))
  {
    ColumnMatches(c.name, wanted);
    var names := ColumnNames([c]);
    assert names == [[c.name]] && names[1..] == [];
    assert Matching(names, wanted) == [[c.name]] + [];
    assert [name] + [c.name] == [name, c.name];
  }

  lemma TwoParts(name: string, c: Column, wanted: Name)
    requires |wanted| == 2 && wanted[1] == Strings.Lower(c.name)
    ensures ResolveInBase(name, [c], wanted) == Ok(if wanted[0] == name then Some([name, c.name]) else None)
  {
    assert wanted[1..] == [wanted[1]];
    OnePart(name, c, wanted[1..]);
    assert [name] + [c.name] == [name, c.name];
  }

  // ---- the renaming projection ----

  lemma {:induction false} RenamedTypes(s: Schema, names: seq<string>)
    requires |names| == |s|
    ensures Types(Renamed(s, names)) == Types(s)
  {
    forall i | 0 <= i < |s| ensures Types(Renamed(s, names))[i] == Types(s)[i] {
      assert Renamed(s, names)[i] == Column(names[i], s[i].ty);
    }
  }

  /** The projection over a subquery is one the optimizer removes, and removing it leaves the same rows. */
  lemma SubqueryProjectionVanishes(db: Db, q: Subquery, alias: string)
    requires DbOk(db) && PlanSubquery(q, alias).Ok? && WellFormed(db, q.plan.value)
    ensures var p := PlanSubquery(q, alias).value;
            && Optimizer.MergeProjectionAt(p) == Ok(q.plan.value.(schema := p.schema))
            && Denote(db, p).rows == Denote(db, q.plan.value).rows
  {
    var p, child := PlanSubquery(q, alias).value, q.plan.value;
    RenamedTypes(child.schema, JoinAll(Prefixed(alias, q.selectListNames[..|child.schema|])));
    Unary(db, p);
    OptimizerProof.MergeProjectionSound(db, p);
  }

  // ---- a common table expression under another alias ----

  /** `WITH c AS (...)`, of one column `a`. */
  function OneColumn(): Subquery {
    Subquery("c", [["a"]], Ok(Plan(ValuesList([]), [Column("a", Integer)], [])))
  }

  lemma Meanings(prefix: string)
    ensures Prefixed(prefix, [["a"]]) == [[prefix, "a"]]
    ensures Ways([prefix, "a"], ["x", "a"]) == if prefix == "x" then 1 else 0
  {
    var name: Name := [prefix, "a"];
    assert [prefix] + ["a"] == name && name[1..] == ["a"] && ["x", "a"][1..] == ["a"];
    assert Strings.Lower("a") == "a";
    assert MatchSuffix(["a"], ["a"]);
  }

  /** `x.a` in `FROM c AS x` resolves to a name the plan does not have. */
  lemma AliasedCteNotFound()
    ensures var t, ctes := CteRef("c", "x"), [OneColumn()];
            && InScope(t, ctes)
            && Resolve(t, ctes, ["x", "a"]) == Ok(Some(["c", "a"]))
            && PlanTableRef(t, ctes, map[]).Ok?
            && PlanColumn("c.a", PlanTableRef(t, ctes, map[]).value.schema) == Throw
  {
    var t, ctes, wanted := CteRef("c", "x"), [OneColumn()], ["x", "a"];
    Meanings("x");
    Meanings("c");
    var all := AllColumns(t, ctes);
    assert all == [["x", "a"]] && all[1..] == [];
    ResolveExactly(t, ctes, wanted);
    assert OwnColumns(t, ctes) == [["c", "a"]];
    PlanNamesAsBinder(t, ctes, map[]);
    var s := PlanTableRef(t, ctes, map[]).value.schema;
    DottedPair("x");
    assert "x" + ".a" == "x.a";
    assert Named(s) == ["x.a"] && |s| == 1;
    assert s[0].name == Named(s)[0] == "x.a" != "c.a";
    NoneOfTheName(s, "c.a");
  }

  lemma DottedPair(prefix: string)
    ensures Strings.Join([prefix, "a"]) == prefix + ".a"
    ensures JoinAll([[prefix, "a"]]) == [prefix + ".a"]
  {
    assert [prefix, "a"][1..] == ["a"];
    assert prefix + "." + "a" == prefix + ".a";
    assert [[prefix, "a"]][1..] == [];
  }

  function Crossed(): TableRef {
    CrossProduct(CteRef("c", "x"), CteRef("c", "c"))
  }

  lemma CrossedColumns()
    ensures InScope(Crossed(), [OneColumn()])
    ensures AllColumns(Crossed(), [OneColumn()]) == [["x", "a"], ["c", "a"]]
    ensures OwnColumns(Crossed(), [OneColumn()]) == [["c", "a"], ["c", "a"]]
  {
    Meanings("x");
    Meanings("c");
  }

  lemma CrossedResolves()
    ensures InScope(Crossed(), [OneColumn()])
    ensures Resolve(Crossed(), [OneColumn()], ["x", "a"]) == Ok(Some(["c", "a"]))
  {
    CrossedColumns();
    Meanings("x");
    Meanings("c");
    var all: seq<Name> := [["x", "a"], ["c", "a"]];
    assert all[1..] == [["c", "a"]] && all[1..][1..] == [];
    ResolveExactly(Crossed(), [OneColumn()], ["x", "a"]);
  }

  lemma DottedPairs()
    ensures JoinAll([["x", "a"], ["c", "a"]]) == ["x.a", "c.a"]
  {
    DottedPair("x");
    DottedPair("c");
    assert "x" + ".a" == "x.a" && "c" + ".a" == "c.a";
    var all: seq<Name> := [["x", "a"], ["c", "a"]];
    assert JoinAll(all)[0] == Strings.Join(all[0]) && JoinAll(all)[1] == Strings.Join(all[1]);
  }

  /** `x.a` in `FROM c AS x, c` resolves to a name the planner finds in the other table. */
  lemma AliasedCteCrossed()
    ensures var t, ctes := Crossed(), [OneColumn()];
            && InScope(t, ctes)
            && AllColumns(t, ctes) == [["x", "a"], ["c", "a"]]
            && Resolve(t, ctes, ["x", "a"]) == Ok(Some(["c", "a"]))
            && PlanTableRef(t, ctes, map[]).Ok?
            && PlanColumn("c.a", PlanTableRef(t, ctes, map[]).value.schema) == Ok(Col(0, 1, Integer))
  {
    CrossedColumns();
    CrossedResolves();
    DottedPairs();
    PlanNamesAsBinder(Crossed(), [OneColumn()], map[]);
    var s := PlanTableRef(Crossed(), [OneColumn()], map[]).value.schema;
    assert |s| == |Named(s)| == 2;
    assert s[0].name == Named(s)[0] == "x.a" && s[1].name == Named(s)[1] == "c.a";
    OneOfTheName(s, "c.a", 1);
  }
}
