/** Why each hypothesis of the pushdown theorems is needed: a condition outside
    it on which the parser loses or admits a row. */
module CondWitness {
  import opened Options
  import opened Sql
  import opened Match
  import opened CondItem
  import opened CondMachine
  import opened CondTranslate
  import opened CondRefine
  import opened CondFn
  import opened CondSound

  const A := Field("a", Numeric)
  const B := Field("b", Numeric)
  const C := Field("c", Numeric)

  function Num(k: int): Expr {
    Const(Some(k), IntResult, false, Name(k, false))
  }

  function EqTo(e: Expr, k: int): Expr {
    Fn(Cmp(Eq), [e, Num(k)])
  }

  const Inner := EqTo(B, 2)
  const Outer := Fn(Cmp(Eq), [Inner, Num(1)])
  const CutCond := Logic(OrOp, [EqTo(A, 1), Outer, EqTo(C, 4)])

  lemma {:induction false} CutCondIsCut()
    ensures Regular(CutCond) && ListsGiven(CutCond) && CutShort(CutCond)
    ensures Before(CutCond.operands) == [EqTo(A, 1)]
  {
    var es := CutCond.operands;
    OuterIsNested();
    EqMatches("a", 1);
    EqMatches("c", 4);
    assert es[1..][0] == Outer;
    assert BeforeNested(es[1..]) == 0;
  }

  lemma {:induction false} OuterIsNested()
    ensures PlainFn(Outer) && Nested(Outer) && FnMatch(Outer).Fail?
  {
    assert Outer.args[0] == Inner;
    assert PlainFn(Inner);
    assert Params(Outer.args) == [Some(Inner), Some(Num(1))];
  }

  lemma {:induction false} EqMatches(col: string, k: int)
    ensures var e := EqTo(Field(col, Numeric), k);
            PlainFn(e) && !Nested(e) && FnMatch(e) == Done(ColVal(col, Eq, k)) && WrittenRight(e)
  {
    assert Params(EqTo(Field(col, Numeric), k).args) == [Some(Field(col, Numeric)), Some(Num(k))];
  }

  /** (a = 1) OR ((b = 2) = 1) OR (c = 4): only a = 1 is pushed, as an `$or`, and a
      row with c = 4 never reaches MySQL. */
  lemma {:induction false} CutShortOrLosesRow()
    ensures var row := map["c" := 4];
            CutShort(CutCond) && Selects(CutCond, row) && !Survives(CutCond, row, Rejecting)
  {
    var es := CutCond.operands;
    var row := map["c" := 4];
    CutCondIsCut();
    assert EvalAll(es[0].args, row) == [None, Some(1)];
    assert EvalAll(es[2].args, row) == [Some(4), Some(4)];
    assert Selects(es[2], row) && !Selects(es[0], row);
    LogicSelects(CutCond, row);
    EqMatches("a", 1);
    RightSelectsAsWritten(es[0], row);
    CutShortKeepsIff(CutCond, row);
  }

  /** ((b = 2) = 1) OR (c = 4): with the nested operand first nothing is lost. */
  lemma {:induction false} NestedFirstKeepsRow()
    ensures var cond := Logic(OrOp, [Outer, EqTo(C, 4)]);
            var row := map["c" := 4];
            && !CutShort(cond) && CondPush(cond) == Pushed(AnyOf([]), true)
            && Selects(cond, row) && Survives(cond, row, Rejecting)
  {
    var cond := Logic(OrOp, [Outer, EqTo(C, 4)]);
    var row := map["c" := 4];
    OuterIsNested();
    EqMatches("c", 4);
    assert EvalAll(EqTo(C, 4).args, row) == [Some(4), Some(4)];
    assert Selects(cond.operands[1], row);
    LogicSelects(cond, row);
    NestedFirstIsHarmless(cond, row, Rejecting);
  }

  /** a IN (x) with an integer constant x that is NULL: the list sent is [0], so the row
      a = 0 is returned, and MySQL's filter is gone. */
  lemma {:induction false} NullInListAdmitsRow()
    ensures var cond := Fn(In(false), [A, Const(None, IntResult, false, Name(7, false))]);
            var row := map["a" := 0];
            !CondPush(cond).residual && Survives(cond, row, Rejecting) && !Selects(cond, row)
  {
    var unset := Const(None, IntResult, false, Name(7, false));
    var cond := Fn(In(false), [A, unset]);
    var row := map["a" := 0];
    assert PlainFn(cond);
    assert Params(cond.args)[1..] == [Some(unset)];
    assert [Some(unset)][1..] == [];
    var none: seq<int> := [];
    assert ItemVals(Numeric, [Some(unset)]) == Done([0] + none) && [0] + none == [0];
    assert cond.args[0] == A && Params(cond.args)[0] == Some(A);
    assert FnMatch(cond) == Done(ColIn("a", false, [0]));
    assert !Nested(cond);
    ParserComputesTranslation(cond);
    assert EvalAll(cond.args, row) == [Some(0), None];
    InTruth(0, [None]);
  }

  /** t = x with a string constant x whose value is 5 and whose name spells 7, such as an
      expression: 7 is sent, so the row t = 5 is lost and, MySQL's filter being gone, the
      row t = 7 is returned. */
  lemma {:induction false} NamedConstantLosesRow()
    ensures var cond := Fn(Cmp(Eq), [Field("t", Text(false)), Const(Some(5), StringResult, false, Name(7, false))]);
            && NameLoses(cond, map["t" := 5]) && !Survives(cond, map["t" := 5], Rejecting)
            && Admits(cond, map["t" := 7]) && Survives(cond, map["t" := 7], Rejecting)
  {
    var t, x := Field("t", Text(false)), Const(Some(5), StringResult, false, Name(7, false));
    var cond := Fn(Cmp(Eq), [t, x]);
    assert Params(cond.args) == [Some(t), Some(x)];
    assert FnMatch(cond) == Done(ColVal("t", Eq, 7));
    assert PlainFn(cond) && !Nested(cond);
    ParserComputesTranslation(cond);
    forall k | k == 5 || k == 7 ensures Selects(cond, map["t" := k]) <==> k == 5 {
      assert EvalAll(cond.args, map["t" := k]) == [Some(k), Some(5)];
    }
    FilterMeansAsPushed(cond, map["t" := 5]);
    FilterMeansAsPushed(cond, map["t" := 7]);
  }

  lemma {:induction false} TokensOfTwo(e: Expr, e': Expr)
    ensures TokensOf([e, e']) == Tokens(e) + Tokens(e')
  {
    assert [e, e'][1..] == [e'];
    assert TokensOf([e']) == Tokens(e') + [];
  }

  /** F(c = 1 OR c = 2) AND b, an OR below a function: the operands of the inner OR
      become conjuncts of the outer AND, and the row b = 1, c = 1 is lost. */
  lemma {:induction false} LogicBelowFunctionLosesRow(f: Func)
    requires f.Unknown? && Truth(f.den([Some(1)]))
    ensures var cond := Logic(AndOp, [Fn(f, [Logic(OrOp, [EqTo(C, 1), EqTo(C, 2)])]), B]);
            var row := map["b" := 1, "c" := 1];
            && CondPush(cond).filter == AllOf([ColVal("c", Eq, 1), ColVal("c", Eq, 2)])
            && Selects(cond, row) && !Survives(cond, row, Rejecting)
  {
    var inOr := Logic(OrOp, [EqTo(C, 1), EqTo(C, 2)]);
    var fn := Fn(f, [inOr]);
    var cond := Logic(AndOp, [fn, B]);
    var row := map["b" := 1, "c" := 1];
    MisreadParse(cond, fn, inOr);
    MisreadRow(cond, fn, inOr, row);
    var m := CondPush(cond).filter;
    assert m.ms[1] in m.ms && !Accepts(m.ms[1], row, Rejecting);
  }

  lemma {:induction false} MisreadRow(cond: Expr, fn: Expr, inOr: Expr, row: Row)
    requires inOr == Logic(OrOp, [EqTo(C, 1), EqTo(C, 2)]) && row == map["b" := 1, "c" := 1]
    requires fn.Fn? && fn.f.Unknown? && fn.args == [inOr] && cond == Logic(AndOp, [fn, B])
    requires Truth(fn.f.den([Some(1)]))
    ensures Selects(cond, row)
  {
    assert EvalAll(EqTo(C, 1).args, row) == [Some(1), Some(1)];
    assert EvalAll(inOr.operands, row)[0] == Some(1);
    assert Eval(inOr, row) == Some(1);
    assert EvalAll(fn.args, row) == [Some(1)];
    LogicSelects(cond, row);
  }

  lemma {:induction false} Feed(s: State, tok: Option<Expr>, rest: seq<Option<Expr>>)
    ensures Run(s, [tok] + rest) == Run(Push(s, tok), rest)
  {
    assert ([tok] + rest)[1..] == rest;
  }

  lemma {:induction false} MisreadParse(cond: Expr, fn: Expr, inOr: Expr)
    requires inOr == Logic(OrOp, [EqTo(C, 1), EqTo(C, 2)])
    requires fn.Fn? && fn.f.Unknown? && fn.args == [inOr] && cond == Logic(AndOp, [fn, B])
    ensures Parse(Tokens(cond)) == (BeforeSupported, AllOf([ColVal("c", Eq, 1), ColVal("c", Eq, 2)]))
  {
    var body := Tokens(EqTo(C, 1)) + Tokens(EqTo(C, 2));
    var tail := [None] + ([Some(B)] + [None]);
    MisreadTokens(cond, fn, inOr);
    MisreadHead(cond, fn, inOr, body + tail);
    var s := State(Some(NewState(LogicKind(AndOp)).(ok := false)), [], PartSupported);
    RunConcat(s, body, tail);
    MisreadBody(s);
    MisreadTail(Run(s, body));
  }

  lemma {:induction false} MisreadTokens(cond: Expr, fn: Expr, inOr: Expr)
    requires inOr == Logic(OrOp, [EqTo(C, 1), EqTo(C, 2)])
    requires fn.Fn? && fn.args == [inOr] && cond == Logic(AndOp, [fn, B])
    ensures Tokens(cond) == [Some(cond)] + ([Some(fn)] + ([Some(inOr)] +
            ((Tokens(EqTo(C, 1)) + Tokens(EqTo(C, 2))) + ([None] + ([Some(B)] + [None])))))
  {
    TokensOfTwo(EqTo(C, 1), EqTo(C, 2));
    TokensOfTwo(fn, B);
    assert TokensOf([inOr]) == Tokens(inOr) + [];
  }

  lemma {:induction false} MisreadHead(cond: Expr, fn: Expr, inOr: Expr, rest: seq<Option<Expr>>)
    requires inOr.Logic? && fn.Fn? && fn.f.Unknown? && |fn.args| == 1 && cond.Logic? && cond.op == AndOp
    ensures Run(Init, [Some(cond)] + ([Some(fn)] + ([Some(inOr)] + rest))) ==
            Run(State(Some(NewState(LogicKind(AndOp)).(ok := false)), [], PartSupported), rest)
  {
    var root, un := NewState(LogicKind(AndOp)), NewState(KindOf(fn));
    var s1 := State(Some(root), [], Supported);
    var s2 := State(Some(un), [root] + [], Supported);
    var s3 := State(Some(root.(ok := false)), [], PartSupported);
    Feed(Init, Some(cond), [Some(fn)] + ([Some(inOr)] + rest));
    Feed(s1, Some(fn), [Some(inOr)] + rest);
    Feed(s2, Some(inOr), rest);
    assert s2.stack[1..] == [];
    assert Push(s1, Some(fn)) == s2;
    assert Push(s2, Some(inOr)) == s3;
  }

  lemma {:induction false} MisreadBody(s: State)
    requires s == State(Some(NewState(LogicKind(AndOp)).(ok := false)), [], PartSupported)
    ensures Run(s, Tokens(EqTo(C, 1)) + Tokens(EqTo(C, 2))) ==
            WithCur(s, s.cur.value.(children := [ColVal("c", Eq, 1), ColVal("c", Eq, 2)]))
  {
    var c1, c2 := EqTo(C, 1), EqTo(C, 2);
    var root := s.cur.value;
    RunConcat(s, Tokens(c1), Tokens(c2));
    EqMatches("c", 1);
    EqMatches("c", 2);
    RunOperand(s, root, c1);
    var root1 := root.(children := root.children + [ColVal("c", Eq, 1)]);
    RunOperand(WithCur(s, root1), root1, c2);
    assert root1.children + [ColVal("c", Eq, 2)] == [ColVal("c", Eq, 1), ColVal("c", Eq, 2)];
  }

  lemma {:induction false} MisreadTail(s: State)
    requires s.cur.Some? && s.stack == [] && KeepOn(s) && IsAnd(s.cur.value)
    ensures Finish(PopAll(Run(s, [None] + ([Some(B)] + [None])))) == (BeforeSupported, AllOf(s.cur.value.children))
  {
    var s1 := WithCur(s, s.cur.value.(finished := true));
    Feed(s, None, [Some(B)] + [None]);
    assert Push(s, None) == s1;
    Feed(s1, Some(B), [None]);
    FrozenOnceGivenUp(Push(s1, Some(B)), [None]);
  }

  /** a < Z() AND b with a function of no arguments: its item takes b as its own
      argument, the status stays supported, MySQL drops its filter and a row with b
      NULL is returned. */
  lemma {:induction false} NoArgumentFunctionAdmitsRow(f: Func)
    requires f.Unknown? && f.deterministic && f.res.IntResult?
    ensures var cond := Logic(AndOp, [Fn(Cmp(Lt), [A, Fn(f, [])]), B]);
            var row := map["a" := Image(f.den([])) - 1];
            && !CondPush(cond).residual
            && Survives(cond, row, Rejecting) && !Selects(cond, row)
  {
    var z := Fn(f, []);
    var lt := Fn(Cmp(Lt), [A, z]);
    var cond := Logic(AndOp, [lt, B]);
    StolenTokens(cond, lt, z);
    StolenArgument(cond, lt, z);
    var row := map["a" := Image(f.den([])) - 1];
    assert ConstValue(z) == f.den([]);
    assert !Selects(cond.operands[1], row);
    LogicSelects(cond, row);
  }

  lemma {:induction false} StolenTokens(cond: Expr, lt: Expr, z: Expr)
    requires z.Fn? && z.args == []
    requires lt == Fn(Cmp(Lt), [A, z]) && cond == Logic(AndOp, [lt, B])
    ensures Tokens(cond) ==
            [Some(cond)] + ([Some(lt)] + ([Some(A)] + ([Some(z)] + ([Some(B)] + [None]))))
  {
    TokensOfTwo(A, z);
    TokensOfTwo(lt, B);
  }

  /** The two items waiting when the function of no arguments is opened. */
  ghost function Waiting(lt: Expr, root: ItemState): seq<ItemState>
    requires lt.Fn?
  {
    [NewState(KindOf(lt)).(params := [Some(A)], num := 1)] + [root]
  }

  lemma {:induction false} StolenHead(cond: Expr, lt: Expr, z: Expr, rest: seq<Option<Expr>>)
    requires z.Fn? && lt == Fn(Cmp(Lt), [A, z]) && cond.Logic? && cond.op == AndOp
    ensures Run(Init, [Some(cond)] + ([Some(lt)] + ([Some(A)] + ([Some(z)] + rest)))) ==
            Run(State(Some(NewState(KindOf(z))), Waiting(lt, NewState(LogicKind(AndOp))), Supported), rest)
  {
    var root, lt0 := NewState(LogicKind(AndOp)), NewState(KindOf(lt));
    var s1 := State(Some(root), [], Supported);
    var s2 := State(Some(lt0), [root] + [], Supported);
    var s3 := State(Some(lt0.(params := [] + [Some(A)], num := 1)), [root], Supported);
    Feed(Init, Some(cond), [Some(lt)] + ([Some(A)] + ([Some(z)] + rest)));
    Feed(s1, Some(lt), [Some(A)] + ([Some(z)] + rest));
    Feed(s2, Some(A), [Some(z)] + rest);
    Feed(s3, Some(z), rest);
    assert Push(s2, Some(A)) == s3;
    assert lt0.params + [Some(A)] == [Some(A)];
    assert Push(s3, Some(z)).stack == Waiting(lt, root);
  }

  lemma {:induction false} StolenStep(lt: Expr, z: Expr, root: ItemState)
    requires z.Fn? && z.f.Unknown? && z.args == [] && IsConst(z) && z.f.res.IntResult?
    requires lt == Fn(Cmp(Lt), [A, z]) && root == NewState(LogicKind(AndOp))
    ensures Push(State(Some(NewState(KindOf(z))), Waiting(lt, root), Supported), Some(B)) ==
            State(Some(root.(children := [ColVal("a", Lt, Image(ConstValue(z)))])), [], Supported)
  {
    var m := ColVal("a", Lt, Image(ConstValue(z)));
    var lt0, un := NewState(KindOf(lt)), NewState(KindOf(z));
    var lt1 := lt0.(params := [Some(A)], num := 1);
    var lt2 := lt0.(params := lt1.params + [Some(z)], num := 2, finished := true);
    assert Waiting(lt, root)[1..] == [root];
    assert PushItem(lt1, PushToken(un, Some(B)).0) == (lt2, Ok);
    assert FuncMatch(Cmp(Lt), lt2.params) == Done(m);
    assert PushItem(root, lt2) == (root.(children := [] + [m]), Ok);
    assert [root][1..] == [] && root.children + [m] == [m];
    assert Pop(State(Some(lt2), [root], Supported)) == State(Some(root.(children := [m])), [], Supported);
  }

  lemma {:induction false} StolenArgument(cond: Expr, lt: Expr, z: Expr)
    requires z.Fn? && z.f.Unknown? && z.args == [] && IsConst(z) && z.f.res.IntResult?
    requires lt == Fn(Cmp(Lt), [A, z]) && cond.Logic? && cond.op == AndOp
    ensures Parse([Some(cond)] + ([Some(lt)] + ([Some(A)] + ([Some(z)] + ([Some(B)] + [None]))))) ==
            (Supported, AllOf([ColVal("a", Lt, Image(ConstValue(z)))]))
  {
    var root := NewState(LogicKind(AndOp));
    var s4 := State(Some(NewState(KindOf(z))), Waiting(lt, root), Supported);
    StolenHead(cond, lt, z, [Some(B)] + [None]);
    Feed(s4, Some(B), [None]);
    StolenStep(lt, z, root);
    var s5 := Push(s4, Some(B));
    var last: seq<Option<Expr>> := [None];
    assert last == last + [];
    Feed(s5, None, []);
    assert Push(s5, None) == WithCur(s5, s5.cur.value.(finished := true));
  }
}
