/** Merging a filter into the always-true join below it. */
module MergeFilterProof {
  import opened Values
  import opened Expressions
  import opened Plans
  import opened PlanFacts
  import opened Optimizer
  import opened Seqs

  /** The expression reads only the first `n` columns of a single row. */
  predicate ReadsOnly(e: Expr, n: nat) {
    match e
    case Col(t, i, _) => t == 0 && i < n
    case Const(_) => true
    case Cmp(_, l, r) => ReadsOnly(l, n) && ReadsOnly(r, n)
    case Arith(_, l, r) => ReadsOnly(l, n) && ReadsOnly(r, n)
    case Logic(_, l, r) => ReadsOnly(l, n) && ReadsOnly(r, n)
  }

  /** The rewrite succeeds exactly on expressions over the concatenated row. */
  lemma {:induction false} RewriteSucceeds(e: Expr, lc: nat, rc: nat)
    ensures RewriteExpressionForJoin(e, lc, rc).Ok? <==> ReadsOnly(e, lc + rc)
  {
    if !e.Col? && !e.Const? {
      RewriteSucceeds(e.left, lc, rc);
      RewriteSucceeds(e.right, lc, rc);
    }
  }

  /** The rewritten expression means on a pair of rows what the original means on their concatenation. */
  lemma {:induction false} RewriteMeaning(e: Expr, lrow: Row, rrow: Row)
    requires RewriteExpressionForJoin(e, |lrow|, |rrow|).Ok?
    ensures EvalJoin(RewriteExpressionForJoin(e, |lrow|, |rrow|).value, lrow, rrow) == Eval(e, lrow + rrow)
  {
    if !e.Col? && !e.Const? {
      RewriteMeaning(e.left, lrow, rrow);
      RewriteMeaning(e.right, lrow, rrow);
    }
  }

  const TRUE: Expr := Const(BoolV(true))

  /** A join on a constant matches everything or nothing. */
  lemma {:induction false} ConstMatches(v: Value, l: Row, rs: seq<Row>)
    ensures NljMatches(Const(v), l, rs) == if Passes(v) then rs else []
  {
    if rs != [] { ConstMatches(v, l, rs[1..]); }
  }

  lemma TailOfAppend<T>(a: seq<T>, b: seq<T>)
    requires a != []
    ensures a + b != [] && (a + b)[0] == a[0] && (a + b)[1..] == a[1..] + b
  {
  }

  lemma {:induction false} FilterAppend(p: Expr, a: seq<Row>, b: seq<Row>)
    ensures FilterRows(p, a + b) == FilterRows(p, a) + FilterRows(p, b)
  {
    if a == [] {
      assert a + b == b;
    } else {
      TailOfAppend(a, b);
      FilterAppend(p, a[1..], b);
      Associative(Keep(p, a[0]), FilterRows(p, a[1..]), FilterRows(p, b));
    }
  }

  lemma NljCons(pred: Expr, jt: JoinType, ls: seq<Row>, right: Meaning)
    requires ls != []
    ensures NljRows(pred, jt, ls, right) ==
            JoinOne(jt, ls[0], NljMatches(pred, ls[0], right.rows), Pad(right.types))
            + NljRows(pred, jt, ls[1..], right)
  {
    var ms := seq(|ls|, i requires 0 <= i < |ls| => NljMatches(pred, ls[i], right.rows));
    var tail := ls[1..];
    assert ms[1..] == seq(|tail|, i requires 0 <= i < |tail| => NljMatches(pred, tail[i], right.rows));
  }

  lemma PasteCons(l: Row, r: Row, rs: seq<Row>)
    ensures Paste(l, [r] + rs) == [l + r] + Paste(l, rs)
  {
  }

  function KeepMatch(p: Expr, l: Row, r: Row): seq<Row> {
    if Passes(EvalJoin(p, l, r)) then [r] else []
  }

  /** Filtering a left row's pasted matches is matching with the rewritten predicate. */
  lemma {:induction false} FilterPasted(p: Expr, l: Row, rs: seq<Row>, rc: nat)
    requires AllWide(rs, rc) && RewriteExpressionForJoin(p, |l|, rc).Ok?
    ensures FilterRows(p, Paste(l, rs)) ==
            Paste(l, NljMatches(RewriteExpressionForJoin(p, |l|, rc).value, l, rs))
  {
    if rs != [] {
      var p', r, rest := RewriteExpressionForJoin(p, |l|, rc).value, rs[0], rs[1..];
      assert rs == [r] + rest;
      PasteCons(l, r, rest);
      FilterPasted(p, l, rest, rc);
      RewriteMeaning(p, l, r);
      assert FilterRows(p, Paste(l, rs)) == Keep(p, l + r) + FilterRows(p, Paste(l, rest));
      assert NljMatches(p', l, rs) == KeepMatch(p', l, r) + NljMatches(p', l, rest);
      PasteCons(l, r, NljMatches(p', l, rest));
    }
  }

  // ---- exactly when the merge is harmless ----

  /**
   Merging the filter `p`, rewritten to `p'`, into a join on the constant `v` leaves this left row's output alone.
   INNER: the constant passes, or nothing matches anyway. LEFT: the row has a match, or there is no right row and its
   padding passes; with a constant that does not pass, its padding passes and it matches at most a copy of the padding.
   */
  predicate HarmlessRow(jt: JoinType, v: Value, p: Expr, p': Expr, l: Row, right: Meaning) {
    var matches, pad := NljMatches(p', l, right.rows), Pad(right.types);
    if jt != Left then Passes(v) || matches == []
    else if Passes(v) then matches != [] || (right.rows == [] && Passes(Eval(p, l + pad)))
    else Passes(Eval(p, l + pad)) && (matches == [] || matches == [pad])
  }

  function BlockBefore(jt: JoinType, v: Value, p: Expr, l: Row, right: Meaning): seq<Row> {
    FilterRows(p, JoinOne(jt, l, NljMatches(Const(v), l, right.rows), Pad(right.types)))
  }

  function BlockAfter(jt: JoinType, p': Expr, l: Row, right: Meaning): seq<Row> {
    JoinOne(jt, l, NljMatches(p', l, right.rows), Pad(right.types))
  }

  lemma FilterOne(p: Expr, r: Row)
    ensures FilterRows(p, [r]) == Keep(p, r)
  {
    assert [r][1..] == [];
  }

  /** The merge keeps a left row's block or lets it grow or change; it keeps it exactly when the row is harmless. */
  lemma MergedBlock(jt: JoinType, v: Value, p: Expr, l: Row, right: Meaning)
    requires AllWide(right.rows, |right.types|)
    requires RewriteExpressionForJoin(p, |l|, |right.types|).Ok?
    ensures var p' := RewriteExpressionForJoin(p, |l|, |right.types|).value;
            var before, after := BlockBefore(jt, v, p, l, right), BlockAfter(jt, p', l, right);
            && |before| <= |after|
            && (before == after <==> HarmlessRow(jt, v, p, p', l, right))
  {
    ConstMatches(v, l, right.rows);
    FilterPasted(p, l, right.rows, |right.types|);
    FilterOne(p, l + Pad(right.types));
    if jt == Left && !Passes(v) {
      OnlyPadding(p, l, right);
    }
  }

  /** A LEFT join on a constant that does not pass: the padded row, filtered, against the merged matches. */
  lemma OnlyPadding(p: Expr, l: Row, right: Meaning)
    requires RewriteExpressionForJoin(p, |l|, |right.types|).Ok?
    ensures var matches := NljMatches(RewriteExpressionForJoin(p, |l|, |right.types|).value, l, right.rows);
            var pad := Pad(right.types);
            Keep(p, l + pad) == JoinOne(Left, l, matches, pad) <==>
            Passes(Eval(p, l + pad)) && (matches == [] || matches == [pad])
  {
    var matches := NljMatches(RewriteExpressionForJoin(p, |l|, |right.types|).value, l, right.rows);
    var pad := Pad(right.types);
    if matches != [] {
      assert Paste(l, matches)[0] == l + matches[0];
      if l + matches[0] == l + pad {
        assert matches[0] == (l + matches[0])[|l|..] == (l + pad)[|l|..] == pad;
      }
      assert |matches| == 1 ==> matches == [matches[0]];
    }
  }

  function Concat(blocks: seq<seq<Row>>): seq<Row> {
    if blocks == [] then [] else blocks[0] + Concat(blocks[1..])
  }

  /** If no block shrinks, the whole is kept exactly when every block is. */
  lemma {:induction false} ConcatEqual(bs: seq<seq<Row>>, as': seq<seq<Row>>)
    requires |bs| == |as'|
    requires forall i :: 0 <= i < |bs| ==> |bs[i]| <= |as'[i]|
    ensures |Concat(bs)| <= |Concat(as')|
    ensures Concat(bs) == Concat(as') <==> bs == as'
  {
    if bs != [] {
      ConcatEqual(bs[1..], as'[1..]);
      SplitEqual(bs[0], Concat(bs[1..]), as'[0], Concat(as'[1..]));
      assert bs == [bs[0]] + bs[1..] && as' == [as'[0]] + as'[1..];
    }
  }

  lemma SplitEqual(b0: seq<Row>, b1: seq<Row>, a0: seq<Row>, a1: seq<Row>)
    requires |b0| <= |a0| && |b1| <= |a1|
    ensures b0 + b1 == a0 + a1 <==> b0 == a0 && b1 == a1
  {
    if b0 + b1 == a0 + a1 {
      assert |b0 + b1| == |a0 + a1|;
      assert b0 == (b0 + b1)[..|b0|] == (a0 + a1)[..|a0|] == a0;
      assert b1 == (b0 + b1)[|b0|..] == (a0 + a1)[|a0|..] == a1;
    }
  }

  function Before(jt: JoinType, v: Value, p: Expr, ls: seq<Row>, right: Meaning): (blocks: seq<seq<Row>>)
    ensures |blocks| == |ls|
  {
    seq(|ls|, i requires 0 <= i < |ls| => BlockBefore(jt, v, p, ls[i], right))
  }

  function After(jt: JoinType, p': Expr, ls: seq<Row>, right: Meaning): (blocks: seq<seq<Row>>)
    ensures |blocks| == |ls|
  {
    seq(|ls|, i requires 0 <= i < |ls| => BlockAfter(jt, p', ls[i], right))
  }

  lemma {:induction false} BeforeBlocks(jt: JoinType, v: Value, p: Expr, ls: seq<Row>, right: Meaning)
    ensures FilterRows(p, NljRows(Const(v), jt, ls, right)) == Concat(Before(jt, v, p, ls, right))
  {
    if ls != [] {
      NljCons(Const(v), jt, ls, right);
      FilterAppend(p, JoinOne(jt, ls[0], NljMatches(Const(v), ls[0], right.rows), Pad(right.types)),
                   NljRows(Const(v), jt, ls[1..], right));
      BeforeBlocks(jt, v, p, ls[1..], right);
      assert Before(jt, v, p, ls, right)[1..] == Before(jt, v, p, ls[1..], right);
    }
  }

  lemma {:induction false} AfterBlocks(jt: JoinType, p': Expr, ls: seq<Row>, right: Meaning)
    ensures NljRows(p', jt, ls, right) == Concat(After(jt, p', ls, right))
  {
    if ls != [] {
      NljCons(p', jt, ls, right);
      AfterBlocks(jt, p', ls[1..], right);
      assert After(jt, p', ls, right)[1..] == After(jt, p', ls[1..], right);
    }
  }

  /** For either join type and any constant, merging preserves the rows if and only if every left row is harmless. */
  lemma MergeExactly(jt: JoinType, v: Value, p: Expr, ls: seq<Row>, right: Meaning, lc: nat)
    requires AllWide(ls, lc) && AllWide(right.rows, |right.types|)
    requires RewriteExpressionForJoin(p, lc, |right.types|).Ok?
    ensures var p' := RewriteExpressionForJoin(p, lc, |right.types|).value;
            FilterRows(p, NljRows(Const(v), jt, ls, right)) == NljRows(p', jt, ls, right)
            <==> forall i :: 0 <= i < |ls| ==> HarmlessRow(jt, v, p, p', ls[i], right)
  {
    var p' := RewriteExpressionForJoin(p, lc, |right.types|).value;
    var bs, as' := Before(jt, v, p, ls, right), After(jt, p', ls, right);
    BeforeBlocks(jt, v, p, ls, right);
    AfterBlocks(jt, p', ls, right);
    forall i | 0 <= i < |ls|
      ensures |bs[i]| <= |as'[i]|
      ensures bs[i] == as'[i] <==> HarmlessRow(jt, v, p, p', ls[i], right)
    {
      MergedBlock(jt, v, p, ls[i], right);
    }
    ConcatEqual(bs, as');
  }

  /** Filtering an INNER cross product is the INNER join on the rewritten predicate, row for row. */
  lemma MergeInner(p: Expr, ls: seq<Row>, right: Meaning, lc: nat)
    requires AllWide(ls, lc) && AllWide(right.rows, |right.types|)
    requires RewriteExpressionForJoin(p, lc, |right.types|).Ok?
    ensures FilterRows(p, NljRows(TRUE, Inner, ls, right)) ==
            NljRows(RewriteExpressionForJoin(p, lc, |right.types|).value, Inner, ls, right)
  {
    MergeExactly(Inner, BoolV(true), p, ls, right, lc);
  }

  /** A plan on which the rule changes the answer: a LEFT cross product under a filter no row passes. */
  function LeftExample(): Plan {
    var one := [Column("a.x", Integer)];
    var lists := ValuesList([[Const(IntV(Integer, 1))]]);
    Plan(Filter(Const(BoolV(false))), one + one,
         [Plan(Nlj(TRUE, Left), one + one, [Plan(lists, one, []), Plan(lists, one, [])])])
  }

  lemma LeftExampleWellFormed(db: Db)
    ensures WellFormed(db, LeftExample())
  {
    var nlj := LeftExample().children[0];
    assert WellFormed(db, nlj.children[0]) && WellFormed(db, nlj.children[1]);
    assert WellFormed(db, nlj);
  }

  lemma LeftMergeChangesRows(db: Db)
    ensures var p := LeftExample();
            && MergeFilterNljAt(p).Ok?
            && Denote(db, p).rows == []
            && Denote(db, MergeFilterNljAt(p).value).rows != []
  {
    LeftExampleEmpty(db);
    var p := LeftExample();
    var nlj, pred := p.children[0], Const(BoolV(false));
    var merged := Plan(Nlj(pred, Left), p.schema, nlj.children);
    assert MergeFilterNljAt(p) == Ok(merged);
    var left, right := Denote(db, nlj.children[0]), Denote(db, nlj.children[1]);
    Leaf(db, nlj.children[0]);
    assert |left.rows| == 1;
    Binary(db, merged);
    FalseMatchesNone(left.rows[0], right.rows);
    NljCons(pred, Left, left.rows, right);
  }

  lemma LeftExampleEmpty(db: Db)
    ensures Denote(db, LeftExample()).rows == []
  {
    var p := LeftExample();
    Unary(db, p);
    FilterNone(Denote(db, p.children[0]).rows);
  }

  lemma {:induction false} FalseMatchesNone(l: Row, rs: seq<Row>)
    ensures NljMatches(Const(BoolV(false)), l, rs) == []
  {
    if rs != [] { FalseMatchesNone(l, rs[1..]); }
  }

  lemma {:induction false} FilterNone(rows: seq<Row>)
    ensures FilterRows(Const(BoolV(false)), rows) == []
  {
    if rows != [] { FilterNone(rows[1..]); }
  }
}
