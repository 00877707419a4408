/** What condition pushdown does to the meaning of the WHERE clause
    (driver/mysql/ha_sdb.cc, cond_push). */
module CondSound {
  import opened Options
  import opened Sql
  import opened Match
  import opened CondItem
  import opened CondMachine
  import opened CondTranslate
  import opened CondRefine
  import opened CondFn

  // ----- AND and OR

  ghost predicate AllHaveLists(es: seq<Expr>) {
    forall i | 0 <= i < |es| :: HasList(es[i])
  }

  ghost predicate AllSpelled(es: seq<Expr>) {
    forall i | 0 <= i < |es| :: Spelled(es[i])
  }

  ghost predicate AllSelect(es: seq<Expr>, row: Row) {
    forall i | 0 <= i < |es| :: Selects(es[i], row)
  }

  ghost predicate SomeSelects(es: seq<Expr>, row: Row) {
    exists i :: 0 <= i < |es| && Selects(es[i], row)
  }

  lemma {:induction false} LogicSelects(e: Expr, row: Row)
    requires e.Logic?
    ensures Selects(e, row) <==>
            if e.op == AndOp then AllSelect(e.operands, row) else SomeSelects(e.operands, row)
  {
    var vs := EvalAll(e.operands, row);
    AndAllTruth(vs);
    OrAllTruth(vs);
    assert forall i | 0 <= i < |vs| :: vs[i] in vs && vs[i] == Eval(e.operands[i], row);
  }

  lemma {:induction false} AcceptsMore(kept: seq<Matcher>, m: Matcher, row: Row, absent: AbsentRule)
    ensures Accepts(AllOf(kept + [m]), row, absent) <==> Accepts(AllOf(kept), row, absent) && Accepts(m, row, absent)
    ensures AcceptsSome(kept + [m], row, absent) <==> AcceptsSome(kept, row, absent) || Accepts(m, row, absent)
  {
    assert m in kept + [m];
    assert forall k :: k in kept + [m] <==> k in kept || k == m;
  }

  function WrittenAll(es: seq<Expr>): (ws: seq<Expr>)
    ensures |ws| == |es| && forall i | 0 <= i < |es| :: ws[i] == AsWritten(es[i])
  {
    seq(|es|, i requires 0 <= i < |es| => AsWritten(es[i]))
  }

  lemma {:induction false} WrittenAllCons(e: Expr, es: seq<Expr>, row: Row)
    ensures AllSelect(WrittenAll([e] + es), row) <==> Selects(AsWritten(e), row) && AllSelect(WrittenAll(es), row)
    ensures SomeSelects(WrittenAll([e] + es), row) <==> Selects(AsWritten(e), row) || SomeSelects(WrittenAll(es), row)
  {
    assert WrittenAll([e] + es) == [AsWritten(e)] + WrittenAll(es);
    SelectsCons(AsWritten(e), WrittenAll(es), row);
  }

  lemma {:induction false} SelectsCons(e: Expr, es: seq<Expr>, row: Row)
    ensures AllSelect([e] + es, row) <==> Selects(e, row) && AllSelect(es, row)
    ensures SomeSelects([e] + es, row) <==> Selects(e, row) || SomeSelects(es, row)
  {
    var more := [e] + es;
    assert more[0] == e && forall i | 0 <= i < |es| :: more[i + 1] == es[i];
    assert forall i | 0 < i < |more| :: more[i] == es[i - 1];
  }

  // ----- the operands that are pushed

  /** The operands of an AND that are pushed: those with a match object, up to the first
      the parser cannot take in at all. */
  function PushedOperands(es: seq<Expr>): (ts: seq<Expr>)
    ensures forall i | 0 <= i < |ts| :: HasMatch(ts[i])
  {
    if es == [] || !es[0].Fn? || Nested(es[0]) then []
    else if HasMatch(es[0]) then [es[0]] + PushedOperands(es[1..])
    else PushedOperands(es[1..])
  }

  /** The match object of an AND is the conjunction of those, as written. */
  lemma {:induction false} AndScanMeans(es: seq<Expr>, kept: seq<Matcher>, st: Status, row: Row)
    requires AllHaveLists(es)
    ensures Accepts(AndScan(es, kept, st).1, row, Rejecting) <==>
            Accepts(AllOf(kept), row, Rejecting) && AllSelect(WrittenAll(PushedOperands(es)), row)
  {
    if es != [] && es[0].Fn? && !Nested(es[0]) {
      match FnMatch(es[0])
      case Done(m) =>
        FnMeansAsWritten(es[0], row);
        AcceptsMore(kept, m, row, Rejecting);
        AndScanMeans(es[1..], kept + [m], st, row);
        WrittenAllCons(es[0], PushedOperands(es[1..]), row);
      case Fail(_) =>
        AndScanMeans(es[1..], kept, PartSupported, row);
    }
  }

  /** Skipping or stopping at operands loses no row that all of them select. */
  lemma {:induction false} AndScanKeepsSelected(es: seq<Expr>, kept: seq<Matcher>, st: Status, row: Row,
                                                absent: AbsentRule)
    requires AllHaveLists(es) && AllSpelled(es) && AllSelect(es, row) && Accepts(AllOf(kept), row, absent)
    ensures Accepts(AndScan(es, kept, st).1, row, absent)
  {
    if es != [] && es[0].Fn? && !Nested(es[0]) {
      match FnMatch(es[0])
      case Done(m) =>
        FnIsFaithful(es[0], row);
        AcceptsMore(kept, m, row, absent);
        AndScanKeepsSelected(es[1..], kept + [m], st, row, absent);
      case Fail(_) =>
        AndScanKeepsSelected(es[1..], kept, PartSupported, row, absent);
    }
  }

  /** An AND that stayed supported pushed every operand. */
  lemma {:induction false} SupportedAndTakesAll(es: seq<Expr>, kept: seq<Matcher>, st: Status)
    requires AndScan(es, kept, st).0 == Supported
    ensures st == Supported && PushedOperands(es) == es
  {
    if es != [] {
      match FnMatch(es[0])
      case Done(m) =>
        SupportedAndTakesAll(es[1..], kept + [m], st);
        assert es == [es[0]] + es[1..];
      case Fail(_) =>
        SupportedAndTakesAll(es[1..], kept, PartSupported);
    }
  }

  /** The operands before the first one with a nested recognised function. */
  function BeforeNested(es: seq<Expr>): (k: nat)
    ensures k <= |es|
  {
    if es == [] || Nested(es[0]) then 0 else 1 + BeforeNested(es[1..])
  }

  function Before(es: seq<Expr>): seq<Expr> {
    es[..BeforeNested(es)]
  }

  predicate AllHaveMatch(es: seq<Expr>) {
    forall i | 0 <= i < |es| :: HasMatch(es[i])
  }

  /** The OR is cut short: an operand with a nested recognised function comes
      after one or more operands that all have a match object. */
  predicate CutShort(e: Expr) {
    && e.Logic? && e.op == OrOp
    && 0 < BeforeNested(e.operands) < |e.operands|
    && AllHaveMatch(Before(e.operands))
  }

  lemma {:induction false} BeforeCons(es: seq<Expr>)
    requires es != [] && !Nested(es[0])
    ensures Before(es) == [es[0]] + Before(es[1..])
    ensures AllHaveMatch(Before(es)) <==> HasMatch(es[0]) && AllHaveMatch(Before(es[1..]))
  {
    var rest := Before(es[1..]);
    assert Before(es) == [es[0]] + rest;
    assert forall i | 0 <= i < |rest| :: Before(es)[i + 1] == rest[i];
  }

  lemma {:induction false} OrScanStatus(es: seq<Expr>, kept: seq<Matcher>)
    ensures OrScan(es, kept).0 ==
            if !AllHaveMatch(Before(es)) then Unsupported
            else if BeforeNested(es) < |es| then BeforeSupported else Supported
    ensures OrScan(es, kept).0 == Unsupported ==> OrScan(es, kept).1 == All
  {
    if es != [] && !Nested(es[0]) {
      BeforeCons(es);
      if HasMatch(es[0]) {
        OrScanStatus(es[1..], kept + [FnMatch(es[0]).value]);
      }
    }
  }

  /** A pushed `$or` is the disjunction of the operands before the cut, as written; an
      `$or` of nothing accepts every row. */
  lemma {:induction false} OrScanMeans(es: seq<Expr>, kept: seq<Matcher>, row: Row)
    requires AllHaveLists(es) && AllHaveMatch(Before(es))
    ensures Accepts(OrScan(es, kept).1, row, Rejecting) <==>
            || AcceptsSome(kept, row, Rejecting) || SomeSelects(WrittenAll(Before(es)), row)
            || (kept == [] && BeforeNested(es) == 0)
  {
    if es != [] && !Nested(es[0]) {
      var m := FnMatch(es[0]).value;
      BeforeCons(es);
      FnMeansAsWritten(es[0], row);
      AcceptsMore(kept, m, row, Rejecting);
      OrScanMeans(es[1..], kept + [m], row);
      WrittenAllCons(es[0], Before(es[1..]), row);
    }
  }

  /** It takes in what they select, however absent fields are compared. */
  lemma {:induction false} OrScanTakesIn(es: seq<Expr>, kept: seq<Matcher>, row: Row, absent: AbsentRule)
    requires AllHaveLists(es) && AllSpelled(es) && AllHaveMatch(Before(es))
    requires SomeSelects(Before(es), row) || AcceptsSome(kept, row, absent)
    ensures Accepts(OrScan(es, kept).1, row, absent)
  {
    if es != [] && !Nested(es[0]) {
      var m := FnMatch(es[0]).value;
      BeforeCons(es);
      SelectsCons(es[0], Before(es[1..]), row);
      AcceptsMore(kept, m, row, absent);
      if Selects(es[0], row) {
        FnIsFaithful(es[0], row);
      }
      OrScanTakesIn(es[1..], kept + [m], row, absent);
    }
  }

  // ----- cond_push

  /** The match object sent to the server, and whether MySQL keeps its filter. */
  datatype Pushed = Pushed(filter: Matcher, residual: bool)

  function CondPush(cond: Expr): Pushed {
    var (st, m) := Parse(Tokens(cond));
    Pushed(m, st != Supported)
  }

  /** The rows that survive the server's filter and then MySQL's. */
  ghost predicate Survives(cond: Expr, row: Row, absent: AbsentRule) {
    && Accepts(CondPush(cond).filter, row, absent)
    && (CondPush(cond).residual ==> Selects(cond, row))
  }

  ghost predicate ListsGiven(cond: Expr) {
    HasList(cond) && (cond.Logic? ==> AllHaveLists(cond.operands))
  }

  ghost predicate ConstsSpelled(cond: Expr) {
    Spelled(cond) && (cond.Logic? ==> AllSpelled(cond.operands))
  }

  /** An OR of nothing, which SQL has no way to write. */
  predicate EmptyOr(cond: Expr) {
    cond.Logic? && cond.op == OrOp && cond.operands == []
  }

  const Everything := Logic(AndOp, [])

  /** The condition the server is left to evaluate: the part that is pushed, with the
      constants as they are written. */
  function AsPushed(cond: Expr): Expr {
    match cond
    case Logic(AndOp, es) => Logic(AndOp, WrittenAll(PushedOperands(es)))
    case Logic(OrOp, es) =>
      if AllHaveMatch(Before(es)) && Before(es) != [] then Logic(OrOp, WrittenAll(Before(es))) else Everything
    case Fn(_, _) => if HasMatch(cond) && !Nested(cond) then AsWritten(cond) else Everything
    case _ => Everything
  }

  /** The match object sent accepts exactly the rows that condition selects. */
  lemma {:induction false} FilterMeansAsPushed(cond: Expr, row: Row)
    requires Regular(cond) && ListsGiven(cond)
    ensures Accepts(CondPush(cond).filter, row, Rejecting) <==> Selects(AsPushed(cond), row)
  {
    ParserComputesTranslation(cond);
    LogicSelects(Everything, row);
    match cond
    case Logic(AndOp, es) =>
      AndScanMeans(es, [], Supported, row);
      LogicSelects(AsPushed(cond), row);
    case Logic(OrOp, es) =>
      OrScanStatus(es, []);
      if AllHaveMatch(Before(es)) {
        OrScanMeans(es, [], row);
        LogicSelects(Logic(OrOp, WrittenAll(Before(es))), row);
      }
    case Fn(_, _) =>
      if HasMatch(cond) {
        FnMeansAsWritten(cond, row);
      }
    case _ =>
  }

  /** No selected row is lost, however the server compares absent fields and whatever
      is NULL in the condition, unless an OR is cut short or a constant's name does not
      spell it. */
  lemma {:induction false} NoSelectedRowIsLost(cond: Expr, row: Row, absent: AbsentRule)
    requires Regular(cond) && ListsGiven(cond) && ConstsSpelled(cond) && !CutShort(cond)
    requires Selects(cond, row)
    ensures Survives(cond, row, absent)
  {
    ParserComputesTranslation(cond);
    match cond
    case Logic(AndOp, es) =>
      LogicSelects(cond, row);
      AndScanKeepsSelected(es, [], Supported, row, absent);
    case Logic(OrOp, es) =>
      LogicSelects(cond, row);
      OrScanStatus(es, []);
      if AllHaveMatch(Before(es)) && BeforeNested(es) > 0 {
        assert Before(es) == es;
        OrScanTakesIn(es, [], row, absent);
      }
    case Fn(_, _) =>
      if HasMatch(cond) {
        FnIsFaithful(cond, row);
      }
    case _ =>
  }

  /** When MySQL drops its filter the server evaluates the whole condition, with the
      constants as they are written; an OR of nothing is the one exception. */
  lemma {:induction false} DroppedFilterMeans(cond: Expr, row: Row)
    requires Regular(cond) && ListsGiven(cond) && !CondPush(cond).residual && !EmptyOr(cond)
    ensures AsPushed(cond) == if cond.Logic? then Logic(cond.op, WrittenAll(cond.operands)) else AsWritten(cond)
    ensures Survives(cond, row, Rejecting) <==> Selects(AsPushed(cond), row)
  {
    ParserComputesTranslation(cond);
    FilterMeansAsPushed(cond, row);
    match cond
    case Logic(AndOp, es) => SupportedAndTakesAll(es, [], Supported);
    case Logic(OrOp, es) =>
      OrScanStatus(es, []);
      assert Before(es) == es;
    case Fn(_, _) =>
  }

  predicate AllPlain(es: seq<Expr>) {
    forall i | 0 <= i < |es| :: PlainFn(es[i]) && !Nested(es[i])
  }

  lemma {:induction false} AndScanStatus(es: seq<Expr>, kept: seq<Matcher>, st: Status)
    requires AllPlain(es) && (st == Supported || st == PartSupported)
    ensures AndScan(es, kept, st).0 == if AllHaveMatch(es) then st else PartSupported
    ensures forall i | 0 <= i < |es| && HasMatch(es[i]) :: es[i] in PushedOperands(es)
    ensures forall e | e in PushedOperands(es) :: e in es
  {
    if es != [] {
      assert es == [es[0]] + es[1..];
      if HasMatch(es[0]) {
        AndScanStatus(es[1..], kept + [FnMatch(es[0]).value], st);
      } else {
        AndScanStatus(es[1..], kept, PartSupported);
      }
    }
  }

  lemma {:induction false} AllBefore(es: seq<Expr>)
    requires AllPlain(es)
    ensures Before(es) == es
  {
    if es != [] {
      AllBefore(es[1..]);
      assert es == [es[0]] + es[1..];
      BeforeCons(es);
    }
  }

  /** Nothing is left to MySQL without need: a function, an AND or an OR of functions
      without nested ones has its filter dropped if and only if every function is
      pushable. */
  lemma {:induction false} FilterIsDroppedIff(cond: Expr)
    requires if cond.Logic? then AllPlain(cond.operands) else PlainFn(cond) && !Nested(cond)
    ensures var es := if cond.Logic? then cond.operands else [cond];
            !CondPush(cond).residual <==> forall i | 0 <= i < |es| :: Pushable(es[i])
  {
    var es := if cond.Logic? then cond.operands else [cond];
    assert [cond][0] == cond;
    forall i | 0 <= i < |es| ensures HasMatch(es[i]) <==> Pushable(es[i]) {
      HasMatchIff(es[i]);
    }
    ParserComputesTranslation(cond);
    match cond
    case Logic(AndOp, _) => AndScanStatus(es, [], Supported);
    case Logic(OrOp, _) =>
      OrScanStatus(es, []);
      AllBefore(es);
    case Fn(_, _) =>
  }

  /** And an AND of such functions sends every one of them that is pushable: the server
      returns a row exactly if all of those, as written, select it. */
  lemma {:induction false} AndPushesAll(es: seq<Expr>, row: Row)
    requires AllPlain(es) && AllHaveLists(es)
    ensures Accepts(CondPush(Logic(AndOp, es)).filter, row, Rejecting) <==>
            forall i | 0 <= i < |es| && Pushable(es[i]) :: Selects(AsWritten(es[i]), row)
  {
    var cond, ts := Logic(AndOp, es), PushedOperands(es);
    forall i | 0 <= i < |es| ensures HasMatch(es[i]) <==> Pushable(es[i]) {
      HasMatchIff(es[i]);
    }
    FilterMeansAsPushed(cond, row);
    LogicSelects(AsPushed(cond), row);
    AndScanStatus(es, [], Supported);
    if AllSelect(WrittenAll(ts), row) {
      forall i | 0 <= i < |es| && HasMatch(es[i]) ensures Selects(AsWritten(es[i]), row) {
        var j :| 0 <= j < |ts| && ts[j] == es[i];
        assert WrittenAll(ts)[j] == AsWritten(es[i]);
      }
    }
    if forall i | 0 <= i < |es| && HasMatch(es[i]) :: Selects(AsWritten(es[i]), row) {
      forall j | 0 <= j < |ts| ensures Selects(WrittenAll(ts)[j], row) {
        assert ts[j] in es;
        var i :| 0 <= i < |es| && es[i] == ts[j];
        assert HasMatch(es[i]);
      }
    }
  }

  /** An OR whose first operand is nested sends an `$or` of nothing: the server returns
      every row and MySQL filters. */
  lemma {:induction false} NestedFirstIsHarmless(cond: Expr, row: Row, absent: AbsentRule)
    requires Regular(cond) && cond.Logic? && cond.op == OrOp && cond.operands != [] && Nested(cond.operands[0])
    ensures CondPush(cond) == Pushed(AnyOf([]), true)
    ensures Survives(cond, row, absent) <==> Selects(cond, row)
  {
    ParserComputesTranslation(cond);
  }

  /** A selected row survives an OR cut short if and only if an operand before the cut,
      as written, selects it. */
  lemma {:induction false} CutShortKeepsIff(cond: Expr, row: Row)
    requires Regular(cond) && ListsGiven(cond) && CutShort(cond) && Selects(cond, row)
    ensures CondPush(cond).residual
    ensures Survives(cond, row, Rejecting) <==> SomeSelects(WrittenAll(Before(cond.operands)), row)
  {
    ParserComputesTranslation(cond);
    OrScanStatus(cond.operands, []);
    FilterMeansAsPushed(cond, row);
    LogicSelects(AsPushed(cond), row);
  }

  /** A selected row is lost because the OR was cut before an operand that selects it. */
  ghost predicate CutLoses(cond: Expr, row: Row) {
    CutShort(cond) && Selects(cond, row) && !SomeSelects(WrittenAll(Before(cond.operands)), row)
  }

  /** A selected row is lost because a constant was written as a name that does not spell
      it. */
  ghost predicate NameLoses(cond: Expr, row: Row) {
    !CutShort(cond) && Selects(cond, row) && !Selects(AsPushed(cond), row)
  }

  /** A row that is not selected is returned because MySQL has dropped its filter and the
      condition, with the constants as written, selects it. */
  ghost predicate Admits(cond: Expr, row: Row) {
    !CondPush(cond).residual && !Selects(cond, row) && Selects(AsPushed(cond), row)
  }

  /** Main theorem: exactly when pushing the condition keeps its meaning on a row, for
      every regular condition, whatever its constants. */
  lemma {:induction false} PushdownPreservesMeaningIff(cond: Expr, row: Row)
    requires Regular(cond) && ListsGiven(cond)
    ensures (Survives(cond, row, Rejecting) <==> Selects(cond, row)) <==>
            !CutLoses(cond, row) && !NameLoses(cond, row) && !Admits(cond, row)
    ensures NameLoses(cond, row) ==> !ConstsSpelled(cond)
    ensures EmptyOr(cond) ==> Admits(cond, row)
  {
    FilterMeansAsPushed(cond, row);
    if Selects(cond, row) {
      if CutShort(cond) {
        CutShortKeepsIff(cond, row);
      } else if ConstsSpelled(cond) {
        NoSelectedRowIsLost(cond, row, Rejecting);
      }
    }
    if EmptyOr(cond) {
      ParserComputesTranslation(cond);
      LogicSelects(cond, row);
      LogicSelects(Everything, row);
    }
  }

  // ----- constants that are written right

  ghost predicate AllRight(es: seq<Expr>) {
    forall i | 0 <= i < |es| && HasMatch(es[i]) :: HasList(es[i]) && WrittenRight(es[i])
  }

  lemma {:induction false} RightSelectsAsWritten(e: Expr, row: Row)
    requires HasMatch(e) && HasList(e) && WrittenRight(e)
    ensures Selects(AsWritten(e), row) <==> Selects(e, row)
  {
    FnMeansAsWritten(e, row);
    FnIsFaithful(e, row);
  }

  lemma {:induction false} RightSelectAsWritten(es: seq<Expr>, row: Row)
    requires AllRight(es) && AllHaveMatch(es)
    ensures AllSelect(WrittenAll(es), row) <==> AllSelect(es, row)
    ensures SomeSelects(WrittenAll(es), row) <==> SomeSelects(es, row)
  {
    forall i | 0 <= i < |es| ensures Selects(WrittenAll(es)[i], row) <==> Selects(es[i], row) {
      RightSelectsAsWritten(es[i], row);
    }
  }

  lemma {:induction false} PushedIsWeaker(es: seq<Expr>, row: Row)
    requires AllRight(es) && AllSelect(es, row)
    ensures AllSelect(WrittenAll(PushedOperands(es)), row)
  {
    if es != [] && es[0].Fn? && !Nested(es[0]) {
      PushedIsWeaker(es[1..], row);
      if HasMatch(es[0]) {
        RightSelectsAsWritten(es[0], row);
        WrittenAllCons(es[0], PushedOperands(es[1..]), row);
      }
    }
  }

  lemma {:induction false} RightIsPushedWeaker(cond: Expr, row: Row)
    requires AllRight(if cond.Logic? then cond.operands else [cond]) && !CutShort(cond) && Selects(cond, row)
    ensures Selects(AsPushed(cond), row)
  {
    LogicSelects(Everything, row);
    match cond
    case Logic(AndOp, es) =>
      LogicSelects(cond, row);
      PushedIsWeaker(es, row);
      LogicSelects(AsPushed(cond), row);
    case Logic(OrOp, es) =>
      if AllHaveMatch(Before(es)) && Before(es) != [] {
        assert Before(es) == es;
        LogicSelects(cond, row);
        RightSelectAsWritten(es, row);
        LogicSelects(AsPushed(cond), row);
      }
    case Fn(_, _) =>
      assert [cond][0] == cond;
      if HasMatch(cond) {
        RightSelectsAsWritten(cond, row);
      }
    case _ =>
  }

  lemma {:induction false} RightIsPushedWhole(cond: Expr, row: Row)
    requires Regular(cond) && ListsGiven(cond) && !CondPush(cond).residual && !EmptyOr(cond)
    requires AllRight(if cond.Logic? then cond.operands else [cond]) && Selects(AsPushed(cond), row)
    ensures Selects(cond, row)
  {
    ParserComputesTranslation(cond);
    DroppedFilterMeans(cond, row);
    match cond
    case Logic(op, es) =>
      if op == AndOp {
        SupportedAndTakesAll(es, [], Supported);
      } else {
        OrScanStatus(es, []);
        assert Before(es) == es;
      }
      RightSelectAsWritten(es, row);
      LogicSelects(cond, row);
      LogicSelects(AsPushed(cond), row);
    case Fn(_, _) =>
      assert [cond][0] == cond;
      RightSelectsAsWritten(cond, row);
  }

  /** A condition whose constants are written right keeps its meaning on every row unless
      an OR is cut short or has no operand. */
  lemma {:induction false} WrittenRightKeepsMeaning(cond: Expr, row: Row)
    requires Regular(cond) && ListsGiven(cond) && !CutShort(cond) && !EmptyOr(cond)
    requires AllRight(if cond.Logic? then cond.operands else [cond])
    ensures Survives(cond, row, Rejecting) <==> Selects(cond, row)
  {
    PushdownPreservesMeaningIff(cond, row);
    if Selects(cond, row) {
      RightIsPushedWeaker(cond, row);
    } else if Admits(cond, row) {
      RightIsPushedWhole(cond, row);
    }
  }
}
