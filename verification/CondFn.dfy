/** One function of a condition and its match object: which rows the object accepts,
    against the rows SQL selects (driver/mysql/sdb_item.cc). */
module CondFn {
  import opened Options
  import opened Sql
  import opened Match
  import opened CondItem
  import opened CondTranslate

  /** IN has a list. */
  predicate HasList(e: Expr) {
    e.Fn? && e.f.In? ==> |e.args| > 1
  }

  /** The function has a match object. */
  predicate HasMatch(e: Expr) {
    e.Fn? && FnMatch(e).Done?
  }

  /** The column a function is about; of two columns, the first. */
  function Column(e: Expr): (c: Expr)
    requires HasMatch(e)
    ensures c.Field?
  {
    if e.f.Cmp? && !e.args[0].Field? then e.args[1] else e.args[0]
  }

  function WrittenArg(e: Expr, i: nat): int
    requires HasMatch(e) && i < |e.args|
  {
    Written(Column(e).kind, e.args[i])
  }

  lemma {:induction false} ItemValIsWritten(kind: FieldKind, e: Expr, inArray: bool, row: Row)
    requires ItemVal(kind, Some(e), inArray).Done?
    ensures IsConst(e) && Eval(e, row) == ConstValue(e)
    ensures ItemVal(kind, Some(e), inArray).value == Written(kind, e)
  {
    ConstIgnoresRow(e, row);
  }

  // ----- comparisons

  predicate TwoColumns(e: Expr)
    requires HasMatch(e) && e.f.Cmp?
  {
    e.args[0].Field? && e.args[1].Field?
  }

  /** The operator with the column on the left, and where the constant stands. */
  function OpOf(e: Expr): CmpOp
    requires HasMatch(e) && e.f.Cmp?
  {
    if e.args[0].Field? then e.f.op else Inverse(e.f.op)
  }

  function ConstAt(e: Expr): nat
    requires HasMatch(e) && e.f.Cmp?
  {
    if e.args[0].Field? then 1 else 0
  }

  lemma {:induction false} CmpSelects(e: Expr, row: Row)
    requires HasMatch(e) && e.f.Cmp? && !TwoColumns(e)
    ensures var col, v := Column(e).col, ConstValue(e.args[ConstAt(e)]);
            Selects(e, row) <==> col in row && v.Some? && Compare(OpOf(e), row[col], v.value)
  {
    assert EvalAll(e.args, row) == [Eval(e.args[0], row), Eval(e.args[1], row)];
    ItemValIsWritten(Column(e).kind, e.args[ConstAt(e)], false, row);
  }

  lemma {:induction false} CmpAccepts(e: Expr, row: Row)
    requires HasMatch(e) && e.f.Cmp? && !TwoColumns(e)
    ensures FnMatch(e).value == ColVal(Column(e).col, OpOf(e), WrittenArg(e, ConstAt(e)))
  {
    ItemValIsWritten(Column(e).kind, e.args[ConstAt(e)], false, row);
  }

  lemma {:induction false} TwoColumnsExact(e: Expr, row: Row)
    requires HasMatch(e) && e.f.Cmp? && TwoColumns(e)
    ensures Safe(FnMatch(e).value, e, row) && Exact(FnMatch(e).value, e, row)
  {
    assert EvalAll(e.args, row) == [Eval(e.args[0], row), Eval(e.args[1], row)];
  }

  // ----- BETWEEN

  lemma {:induction false} BetweenTruth(v: Value, lo: Value, hi: Value)
    ensures Truth(BetweenValue(v, lo, hi)) <==>
            v.Some? && lo.Some? && hi.Some? && lo.value <= v.value <= hi.value
    ensures Truth(Not(BetweenValue(v, lo, hi))) <==>
            v.Some? && ((lo.Some? && v.value < lo.value) || (hi.Some? && hi.value < v.value))
  {
  }

  /** The value lies between the bounds, or outside them; NULL settles neither. */
  predicate Within(negated: bool, lo: Value, hi: Value, x: int) {
    if negated then (lo.Some? && x < lo.value) || (hi.Some? && hi.value < x)
    else lo.Some? && hi.Some? && lo.value <= x <= hi.value
  }

  lemma {:induction false} BetweenSelects(e: Expr, row: Row)
    requires HasMatch(e) && e.f.Between?
    ensures var col := Column(e).col;
            Selects(e, row) <==>
            col in row && Within(e.f.negated, ConstValue(e.args[1]), ConstValue(e.args[2]), row[col])
  {
    ItemValIsWritten(e.args[0].kind, e.args[1], false, row);
    ItemValIsWritten(e.args[0].kind, e.args[2], false, row);
    BetweenTruth(Eval(e.args[0], row), ConstValue(e.args[1]), ConstValue(e.args[2]));
    assert EvalAll(e.args, row) == [Eval(e.args[0], row), ConstValue(e.args[1]), ConstValue(e.args[2])];
  }

  lemma {:induction false} TwoOf(a: Matcher, b: Matcher, row: Row, absent: AbsentRule)
    ensures Accepts(AllOf([a, b]), row, absent) <==> Accepts(a, row, absent) && Accepts(b, row, absent)
    ensures Accepts(AnyOf([a, b]), row, absent) <==> Accepts(a, row, absent) || Accepts(b, row, absent)
  {
    assert a in [a, b] && b in [a, b];
  }

  lemma {:induction false} BetweenAccepts(e: Expr, row: Row, absent: AbsentRule)
    requires HasMatch(e) && e.f.Between?
    ensures var col, lo, hi := Column(e).col, WrittenArg(e, 1), WrittenArg(e, 2);
            && (col in row ==>
                 (Accepts(FnMatch(e).value, row, absent) <==> Within(e.f.negated, Some(lo), Some(hi), row[col])))
            && (col !in row ==> !Accepts(FnMatch(e).value, row, Rejecting))
  {
    ItemValIsWritten(e.args[0].kind, e.args[1], false, row);
    ItemValIsWritten(e.args[0].kind, e.args[2], false, row);
    var m := FnMatch(e).value;
    TwoOf(m.ms[0], m.ms[1], row, absent);
    TwoOf(m.ms[0], m.ms[1], row, Rejecting);
  }

  // ----- IN

  /** The values of the list, and what is written for them. */
  function Listed(e: Expr): (vs: seq<Value>)
    requires e.Fn? && e.args != []
    ensures |vs| == |e.args| - 1 && forall i | 0 <= i < |vs| :: vs[i] == ConstValue(e.args[i + 1])
  {
    seq(|e.args| - 1, i requires 0 <= i < |e.args| - 1 => ConstValue(e.args[i + 1]))
  }

  function WrittenList(e: Expr): (ks: seq<int>)
    requires HasMatch(e) && e.args != []
    ensures |ks| == |e.args| - 1 && forall i | 0 <= i < |ks| :: ks[i] == WrittenArg(e, i + 1)
  {
    seq(|e.args| - 1, i requires 0 <= i < |e.args| - 1 => WrittenArg(e, i + 1))
  }

  lemma {:induction false} InTruth(x: int, vs: seq<Value>)
    ensures Truth(InValue(Some(x), vs)) <==> Some(x) in vs
    ensures Truth(Not(InValue(Some(x), vs))) <==> Some(x) !in vs && None !in vs
  {
    if vs != [] {
      InTruth(x, vs[1..]);
      assert vs == [vs[0]] + vs[1..];
    }
  }

  lemma {:induction false} InOfNull(vs: seq<Value>)
    ensures vs == [] || InValue(None, vs) == None
  {
    if vs != [] {
      InOfNull(vs[1..]);
    }
  }

  lemma {:induction false} ItemValsAreWritten(kind: FieldKind, es: seq<Expr>, row: Row)
    requires ItemVals(kind, Params(es)).Done?
    ensures var ks := ItemVals(kind, Params(es)).value;
            && |ks| == |es|
            && forall i | 0 <= i < |es| :: Eval(es[i], row) == ConstValue(es[i]) && ks[i] == Written(kind, es[i])
  {
    if es != [] {
      assert Params(es)[1..] == Params(es[1..]);
      ItemValIsWritten(kind, es[0], true, row);
      ItemValsAreWritten(kind, es[1..], row);
    }
  }

  lemma {:induction false} InMatches(e: Expr, row: Row)
    requires HasMatch(e) && e.f.In? && e.args != []
    ensures FnMatch(e).value == ColIn(Column(e).col, e.f.negated, WrittenList(e))
    ensures EvalAll(e.args, row)[1..] == Listed(e)
  {
    var p, es := e.args[0], e.args[1..];
    assert Params(e.args)[1..] == Params(es);
    ItemValsAreWritten(p.kind, es, row);
    assert ItemVals(p.kind, Params(es)).value == WrittenList(e);
    forall i | 0 <= i < |es| ensures EvalAll(e.args, row)[1..][i] == Listed(e)[i] {
      assert es[i] == e.args[i + 1];
    }
  }

  predicate Among(negated: bool, vs: seq<Value>, x: int) {
    if negated then Some(x) !in vs && None !in vs else Some(x) in vs
  }

  lemma {:induction false} InSelects(e: Expr, row: Row)
    requires HasMatch(e) && e.f.In? && HasList(e)
    ensures var col := Column(e).col;
            Selects(e, row) <==> col in row && Among(e.f.negated, Listed(e), row[col])
  {
    InMatches(e, row);
    var col := Column(e).col;
    if col in row {
      InTruth(row[col], Listed(e));
    } else {
      InOfNull(Listed(e));
    }
  }

  // ----- safe, and exact

  ghost predicate Safe(m: Matcher, e: Expr, row: Row) {
    Selects(e, row) ==> forall absent: AbsentRule :: Accepts(m, row, absent)
  }

  /** Exactly the selected rows are accepted. */
  ghost predicate Exact(m: Matcher, e: Expr, row: Row) {
    Accepts(m, row, Rejecting) <==> Selects(e, row)
  }

  /** Every constant that is not NULL is written as its value: it is a number or a date,
      or its name spells it. */
  predicate Spelled(e: Expr) {
    HasMatch(e) ==>
      forall i | 0 <= i < |e.args| && !e.args[i].Field? && ConstValue(e.args[i]).Some? ::
        WrittenArg(e, i) == ConstValue(e.args[i]).value
  }

  /** The same values, NULLs aside. */
  predicate SameValues(vs: seq<Value>, ks: seq<int>) {
    && (forall i | 0 <= i < |ks| :: Some(ks[i]) in vs)
    && (forall i | 0 <= i < |vs| && vs[i].Some? :: vs[i].value in ks)
  }

  predicate SameInterval(lo: Value, hi: Value, lo': int, hi': int) {
    || (lo == Some(lo') && hi == Some(hi'))
    || (lo' > hi' && lo.Some? && hi.Some? && lo.value > hi.value)
  }

  /** What is written for the constants gives the same answers as the constants. */
  predicate WrittenRight(e: Expr)
    requires HasMatch(e) && HasList(e)
  {
    match e.f
    case Cmp(_) => TwoColumns(e) || ConstValue(e.args[ConstAt(e)]) == Some(WrittenArg(e, ConstAt(e)))
    case Between(negated) =>
      var lo, hi := ConstValue(e.args[1]), ConstValue(e.args[2]);
      || SameInterval(lo, hi, WrittenArg(e, 1), WrittenArg(e, 2))
      || (!negated && WrittenArg(e, 1) > WrittenArg(e, 2) && (lo.None? || hi.None?))
    case In(negated) => SameValues(Listed(e), WrittenList(e)) && (negated ==> None !in Listed(e))
    case _ => true
  }

  lemma {:induction false} CmpIsFaithful(e: Expr, row: Row)
    requires HasMatch(e) && e.f.Cmp?
    ensures Spelled(e) ==> Safe(FnMatch(e).value, e, row)
    ensures WrittenRight(e) ==> Exact(FnMatch(e).value, e, row)
  {
    if TwoColumns(e) {
      TwoColumnsExact(e, row);
    } else {
      CmpSelects(e, row);
      CmpAccepts(e, row);
    }
  }

  lemma {:induction false} BetweenIsFaithful(e: Expr, row: Row)
    requires HasMatch(e) && e.f.Between?
    ensures Spelled(e) ==> Safe(FnMatch(e).value, e, row)
    ensures WrittenRight(e) ==> Exact(FnMatch(e).value, e, row)
  {
    BetweenSelects(e, row);
    BetweenAccepts(e, row, Rejecting);
    if Spelled(e) && Selects(e, row) {
      BoundsAreConsts(e);
      forall absent: AbsentRule ensures Accepts(FnMatch(e).value, row, absent) {
        BetweenAccepts(e, row, absent);
      }
    }
  }

  lemma {:induction false} BoundsAreConsts(e: Expr)
    requires HasMatch(e) && e.f.Between?
    ensures !e.args[1].Field? && !e.args[2].Field?
  {
  }

  lemma {:induction false} InIsFaithful(e: Expr, row: Row)
    requires HasMatch(e) && e.f.In? && HasList(e)
    ensures Spelled(e) ==> Safe(FnMatch(e).value, e, row)
    ensures WrittenRight(e) ==> Exact(FnMatch(e).value, e, row)
  {
    InMatches(e, row);
    InSelects(e, row);
    var col, ks := Column(e).col, WrittenList(e);
    if col in row {
      if Spelled(e) {
        SpelledList(e, row[col]);
      }
    }
  }

  lemma {:induction false} SpelledList(e: Expr, x: int)
    requires HasMatch(e) && e.f.In? && HasList(e) && Spelled(e)
    ensures Some(x) in Listed(e) ==> x in WrittenList(e)
    ensures None !in Listed(e) && x in WrittenList(e) ==> Some(x) in Listed(e)
  {
    InMatches(e, map[]);
    forall i | 0 <= i < |Listed(e)| ensures Listed(e)[i].Some? ==> WrittenList(e)[i] == Listed(e)[i].value {
      ItemsAreConsts(e, i + 1);
    }
  }

  lemma {:induction false} ItemsAreConsts(e: Expr, i: nat)
    requires HasMatch(e) && e.f.In? && 0 < i < |e.args|
    ensures !e.args[i].Field?
  {
    assert Params(e.args)[1..] == Params(e.args[1..]);
    ListedAreConsts(e.args[0].kind, e.args[1..], i - 1);
  }

  lemma {:induction false} ListedAreConsts(kind: FieldKind, es: seq<Expr>, i: nat)
    requires ItemVals(kind, Params(es)).Done? && i < |es|
    ensures IsConst(es[i])
  {
    assert Params(es)[1..] == Params(es[1..]);
    if i > 0 {
      ListedAreConsts(kind, es[1..], i - 1);
    }
  }

  /** Every function that has a match object: with constants that are spelled, NULLs or
      not, no selected row is refused however the server compares absent fields; with
      constants that are written right the object is exact. */
  lemma {:induction false} FnIsFaithful(e: Expr, row: Row)
    requires HasMatch(e) && HasList(e)
    ensures Spelled(e) ==> Safe(FnMatch(e).value, e, row)
    ensures WrittenRight(e) ==> Exact(FnMatch(e).value, e, row)
  {
    match e.f
    case Cmp(_) => CmpIsFaithful(e, row);
    case Between(_) => BetweenIsFaithful(e, row);
    case In(_) => InIsFaithful(e, row);
    case IsNull => assert EvalAll(e.args, row) == [Eval(e.args[0], row)];
    case IsNotNull => assert EvalAll(e.args, row) == [Eval(e.args[0], row)];
  }

  // ----- which functions have a match object, and what is written

  /** The constant can be written for a column of that kind. */
  predicate Writable(kind: FieldKind, e: Expr, inArray: bool) {
    && IsConst(e)
    && match kind
       case Numeric => ResultOf(e) in {IntResult, RealResult, DecimalResult}
       case Text(binary) => ResultOf(e).StringResult? && !(binary && inArray)
       case Date => ConvertsToDate(e) && !inArray
       case DateTime => ConvertsToDate(e)
       case OtherKind => false
  }

  /** A comparison of a column with a column or a constant, a BETWEEN of a column and
      constants, an IN of a column and a list of constants, or a test of a column for
      NULL; with constants that can be written for the column. */
  predicate Pushable(e: Expr)
    requires e.Fn? && RightArity(e.f, |e.args|)
  {
    match e.f
    case Cmp(_) =>
      var p, q := e.args[0], e.args[1];
      if p.Field? then q.Field? || Writable(p.kind, q, false) else q.Field? && Writable(q.kind, p, false)
    case Between(_) =>
      var p := e.args[0];
      p.Field? && Writable(p.kind, e.args[1], false) && Writable(p.kind, e.args[2], false)
    case In(_) => e.args[0].Field? && forall i | 0 < i < |e.args| :: Writable(e.args[0].kind, e.args[i], true)
    case IsNull => e.args[0].Field?
    case IsNotNull => e.args[0].Field?
    case Unknown(_, _, _, _, _) => false
  }

  lemma {:induction false} ItemValIffWritable(kind: FieldKind, e: Expr, inArray: bool)
    ensures ItemVal(kind, Some(e), inArray).Done? <==> Writable(kind, e, inArray)
  {
  }

  lemma {:induction false} ItemValsIffWritable(kind: FieldKind, es: seq<Expr>)
    ensures ItemVals(kind, Params(es)).Done? <==> forall i | 0 <= i < |es| :: Writable(kind, es[i], true)
  {
    if es != [] {
      assert Params(es)[1..] == Params(es[1..]);
      ItemValIffWritable(kind, es[0], true);
      ItemValsIffWritable(kind, es[1..]);
      assert forall i | 0 < i < |es| :: es[i] == es[1..][i - 1];
    }
  }

  /** Exactly those functions have a match object. */
  lemma {:induction false} HasMatchIff(e: Expr)
    requires e.Fn? && RightArity(e.f, |e.args|)
    ensures HasMatch(e) <==> Pushable(e)
  {
    match e.f
    case Cmp(_) =>
      var p, q := e.args[0], e.args[1];
      if p.Field? {
        ItemValIffWritable(p.kind, q, false);
      } else if q.Field? {
        ItemValIffWritable(q.kind, p, false);
      }
    case Between(_) =>
      if e.args[0].Field? {
        ItemValIffWritable(e.args[0].kind, e.args[1], false);
        ItemValIffWritable(e.args[0].kind, e.args[2], false);
      }
    case In(_) =>
      if e.args[0].Field? {
        assert Params(e.args)[1..] == Params(e.args[1..]);
        ItemValsIffWritable(e.args[0].kind, e.args[1..]);
        assert forall i | 0 < i < |e.args| :: e.args[i] == e.args[1..][i - 1];
      }
    case _ =>
  }

  /** A comparison sends the value of a number or a date, 0 for a number that is NULL, and
      the name of a decimal or a string, except for a placeholder and a binary column. */
  lemma {:induction false} WhatAComparisonSends(op: CmpOp, col: string, kind: FieldKind, k: Expr)
    requires Writable(kind, k, false)
    ensures var e := Fn(Cmp(op), [Field(col, kind), k]);
            && HasMatch(e) && FnMatch(e).value.ColVal? && FnMatch(e).value.col == col && FnMatch(e).value.op == op
            && (ResultOf(k) in {IntResult, RealResult} && !kind.Date? && !kind.DateTime? ==>
                  FnMatch(e).value.v == if ConstValue(k).Some? then ConstValue(k).value else 0)
            && (kind.Date? || kind.DateTime? ==> ConstValue(k) == Some(FnMatch(e).value.v))
            && (kind.Numeric? && ResultOf(k).DecimalResult? ==> FnMatch(e).value.v == NameOf(k).rank)
            && (kind == Text(false) ==> FnMatch(e).value.v == NameOf(k).rank)
            && (kind == Text(true) && !NameOf(k).placeholder ==> FnMatch(e).value.v == NameOf(k).rank)
            && (kind == Text(true) && NameOf(k).placeholder && ConstValue(k).Some? ==>
                  FnMatch(e).value.v == ConstValue(k).value)
  {
    var e := Fn(Cmp(op), [Field(col, kind), k]);
    assert Params(e.args) == [Some(Field(col, kind)), Some(k)];
    ItemValIffWritable(kind, k, false);
    ItemValIsWritten(kind, k, false, map[]);
  }

  /** Numbers and dates are spelled. */
  lemma {:induction false} NumbersAndDatesAreSpelled(e: Expr)
    requires HasMatch(e)
    requires var kind := Column(e).kind;
             || kind.Date? || kind.DateTime?
             || (kind.Numeric? &&
                 forall i | 0 <= i < |e.args| && !e.args[i].Field? :: !ResultOf(e.args[i]).DecimalResult?)
    ensures Spelled(e)
  {
  }

  // ----- the function the server evaluates

  /** A constant that is what was written. */
  function WrittenConst(kind: FieldKind, e: Expr): Expr {
    var w := Written(kind, e);
    Const(Some(w), ResultOf(e), true, Name(w, false))
  }

  /** The function with every constant replaced by what is written for it. */
  function AsWritten(e: Expr): (e': Expr)
    ensures HasMatch(e) ==> e'.Fn? && e'.f == e.f && |e'.args| == |e.args|
  {
    if HasMatch(e) then
      Fn(e.f, seq(|e.args|, i requires 0 <= i < |e.args| =>
        if e.args[i].Field? then e.args[i] else WrittenConst(Column(e).kind, e.args[i])))
    else e
  }

  lemma {:induction false} WrittenItemVal(kind: FieldKind, e: Expr, inArray: bool)
    requires ItemVal(kind, Some(e), inArray).Done?
    ensures ItemVal(kind, Some(WrittenConst(kind, e)), inArray) == ItemVal(kind, Some(e), inArray)
    ensures ConstValue(WrittenConst(kind, e)) == Some(Written(kind, WrittenConst(kind, e)))
  {
  }

  lemma {:induction false} WrittenItemVals(kind: FieldKind, es: seq<Expr>, es': seq<Expr>)
    requires ItemVals(kind, Params(es)).Done? && |es'| == |es|
    requires forall i | 0 <= i < |es| :: es'[i] == WrittenConst(kind, es[i])
    ensures ItemVals(kind, Params(es')) == ItemVals(kind, Params(es))
  {
    if es != [] {
      assert Params(es)[1..] == Params(es[1..]) && Params(es')[1..] == Params(es'[1..]);
      WrittenItemVal(kind, es[0], true);
      WrittenItemVals(kind, es[1..], es'[1..]);
    }
  }

  /** It has the same match object. */
  lemma {:induction false} AsWrittenMatches(e: Expr)
    requires HasMatch(e)
    ensures HasMatch(AsWritten(e)) && FnMatch(AsWritten(e)) == FnMatch(e) && Column(AsWritten(e)) == Column(e)
  {
    var e' := AsWritten(e);
    match e.f
    case Cmp(_) =>
      if !TwoColumns(e) {
        WrittenItemVal(Column(e).kind, e.args[ConstAt(e)], false);
      }
    case Between(_) =>
      WrittenItemVal(e.args[0].kind, e.args[1], false);
      WrittenItemVal(e.args[0].kind, e.args[2], false);
    case In(_) =>
      assert Params(e.args)[1..] == Params(e.args[1..]) && Params(e'.args)[1..] == Params(e'.args[1..]);
      forall i | 0 <= i < |e.args| - 1 ensures e'.args[1..][i] == WrittenConst(e.args[0].kind, e.args[1..][i]) {
        ItemsAreConsts(e, i + 1);
      }
      WrittenItemVals(e.args[0].kind, e.args[1..], e'.args[1..]);
    case _ =>
  }

  lemma {:induction false} AsWrittenIsRight(e: Expr)
    requires HasMatch(e) && HasList(e)
    ensures HasMatch(AsWritten(e)) && HasList(AsWritten(e)) && WrittenRight(AsWritten(e))
  {
    var e' := AsWritten(e);
    AsWrittenMatches(e);
    match e.f
    case Cmp(_) =>
    case Between(_) => BoundsAreConsts(e);
    case In(_) =>
      forall i | 0 <= i < |Listed(e')| ensures Listed(e')[i] == Some(WrittenList(e')[i]) {
        ItemsAreConsts(e, i + 1);
      }
    case _ =>
  }

  /** The server evaluates the function with the constants as they were written. */
  lemma {:induction false} FnMeansAsWritten(e: Expr, row: Row)
    requires HasMatch(e) && HasList(e)
    ensures Accepts(FnMatch(e).value, row, Rejecting) <==> Selects(AsWritten(e), row)
  {
    AsWrittenMatches(e);
    AsWrittenIsRight(e);
    FnIsFaithful(AsWritten(e), row);
  }

  // ----- when what is written does harm

  /** A value on which a comparison with w and one with v, or with NULL, differ. */
  function TellApart(op: CmpOp, w: int, v: Value): (x: int)
    requires v != Some(w)
    ensures Compare(op, x, w) != (v.Some? && Compare(op, x, v.value))
  {
    var low, high := if v.Some? && v.value < w then v.value else w, if v.Some? && v.value > w then v.value else w;
    match op
    case Eq => w
    case Ne => if v.None? then w + 1 else w
    case Lt => if v.None? then w - 1 else low
    case Le => high
    case Gt => if v.None? then w + 1 else high
    case Ge => low
  }

  lemma {:induction false} CmpWrittenWrong(e: Expr) returns (row: Row)
    requires HasMatch(e) && e.f.Cmp? && !WrittenRight(e)
    ensures !Exact(FnMatch(e).value, e, row)
  {
    var k := ConstAt(e);
    row := map[Column(e).col := TellApart(OpOf(e), WrittenArg(e, k), ConstValue(e.args[k]))];
    CmpSelects(e, row);
    CmpAccepts(e, row);
  }

  /** Two intervals that differ, and a value in one of them only. */
  lemma {:induction false} IntervalsDiffer(lo: int, hi: int, lo': int, hi': int) returns (x: int)
    requires !SameInterval(Some(lo), Some(hi), lo', hi')
    ensures (lo <= x <= hi) != (lo' <= x <= hi')
  {
    x := if lo <= hi && !(lo' <= lo <= hi') then lo
         else if lo <= hi && !(lo' <= hi <= hi') then hi
         else if !(lo <= lo' <= hi) then lo' else hi';
  }

  lemma {:induction false} BoundsDiffer(negated: bool, lo: Value, hi: Value, lo': int, hi': int) returns (x: int)
    requires !SameInterval(lo, hi, lo', hi') && !(!negated && lo' > hi' && (lo.None? || hi.None?))
    ensures Within(negated, Some(lo'), Some(hi'), x) != Within(negated, lo, hi, x)
  {
    if lo.Some? && hi.Some? {
      x := IntervalsDiffer(lo.value, hi.value, lo', hi');
    } else if !negated {
      x := lo';
    } else if lo.None? {
      x := if hi.Some? && hi.value < lo' - 1 then hi.value else lo' - 1;
    } else {
      x := if lo.value > hi' + 1 then lo.value else hi' + 1;
    }
  }

  lemma {:induction false} BetweenWrittenWrong(e: Expr) returns (row: Row)
    requires HasMatch(e) && e.f.Between? && !WrittenRight(e)
    ensures !Exact(FnMatch(e).value, e, row)
  {
    var lo, hi := ConstValue(e.args[1]), ConstValue(e.args[2]);
    var x := BoundsDiffer(e.f.negated, lo, hi, WrittenArg(e, 1), WrittenArg(e, 2));
    row := map[Column(e).col := x];
    BetweenSelects(e, row);
    BetweenAccepts(e, row, Rejecting);
  }

  lemma {:induction false} Above(ks: seq<int>) returns (x: int)
    ensures forall k | k in ks :: k < x
  {
    x := 0;
    if ks != [] {
      x := Above(ks[1..]);
      assert ks == [ks[0]] + ks[1..];
      if ks[0] >= x {
        x := ks[0] + 1;
      }
    }
  }

  lemma {:induction false} ListsDiffer(negated: bool, vs: seq<Value>, ks: seq<int>) returns (x: int)
    requires !(SameValues(vs, ks) && (negated ==> None !in vs))
    ensures (x in ks) != negated <==> !Among(negated, vs, x)
  {
    if negated && None in vs {
      x := Above(ks);
    } else if i :| 0 <= i < |ks| && Some(ks[i]) !in vs {
      x := ks[i];
    } else {
      var i :| 0 <= i < |vs| && vs[i].Some? && vs[i].value !in ks;
      x := vs[i].value;
      assert vs[i] == Some(x);
    }
  }

  lemma {:induction false} InWrittenWrong(e: Expr) returns (row: Row)
    requires HasMatch(e) && e.f.In? && HasList(e) && !WrittenRight(e)
    ensures !Exact(FnMatch(e).value, e, row)
  {
    var x := ListsDiffer(e.f.negated, Listed(e), WrittenList(e));
    row := map[Column(e).col := x];
    InMatches(e, row);
    InSelects(e, row);
  }

  /** A function's match object is exact on every row if and only if its constants are
      written right. */
  lemma {:induction false} FnIsExactIff(e: Expr)
    requires HasMatch(e) && HasList(e)
    ensures (forall row :: Exact(FnMatch(e).value, e, row)) <==> WrittenRight(e)
  {
    if WrittenRight(e) {
      forall row ensures Exact(FnMatch(e).value, e, row) {
        FnIsFaithful(e, row);
      }
    } else {
      var row;
      match e.f
      case Cmp(_) => row := CmpWrittenWrong(e);
      case Between(_) => row := BetweenWrittenWrong(e);
      case In(_) => row := InWrittenWrong(e);
      assert !Exact(FnMatch(e).value, e, row);
    }
  }
}
