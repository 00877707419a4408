/** The token-driven machine computes the structural translation, for every
    regular condition of any size. */
module CondRefine {
  import opened Options
  import opened Sql
  import opened Match
  import opened CondItem
  import opened CondMachine
  import opened CondTranslate

  /** The item of the plain function e after its first k arguments. */
  ghost function Filled(e: Expr, k: nat): ItemState
    requires PlainFn(e) && k <= |e.args|
  {
    ItemState(FuncKind(e.f, e.args), k == |e.args|, true, [],
              if e.f.Unknown? then [] else Params(e.args[..k]), k, |e.args|)
  }

  ghost predicate Open(it: ItemState) {
    it.kind.FuncKind? && !it.finished
  }

  /** The parser gave up above `base`, leaving only unfinished function items. */
  ghost predicate Stuck(s: State, base: seq<ItemState>) {
    && s.status == BeforeSupported
    && s.cur.Some? && Open(s.cur.value)
    && |base| <= |s.stack|
    && s.stack[|s.stack| - |base|..] == base
    && forall i | 0 <= i < |s.stack| - |base| :: Open(s.stack[i])
  }

  ghost predicate Offends(e: Expr) {
    e.Fn? && (!e.f.Unknown? || Nested(e))
  }

  ghost function WithCur(s: State, it: ItemState): State {
    s.(cur := Some(it))
  }

  ghost function Opened(s: State, e: Expr): State
    requires PlainFn(e)
  {
    State(Some(Filled(e, 0)), if s.cur.Some? then [s.cur.value] + s.stack else s.stack, s.status)
  }

  /** What one argument does to the item waiting for it, however it arrives. */
  ghost function Taken(s: State, e: Expr, k: nat): State
    requires PlainFn(e) && k < |e.args|
  {
    var s' := WithCur(s, Filled(e, k + 1));
    if k + 1 == |e.args| then Pop(s') else s'
  }

  lemma {:induction false} LeafIsTaken(s: State, e: Expr, k: nat)
    requires KeepOn(s) && PlainFn(e) && k < |e.args| && s.cur == Some(Filled(e, k))
    requires Leaf(e.args[k])
    ensures Push(s, Some(e.args[k])) == Taken(s, e, k)
  {
    FilledStep(e, k);
  }

  lemma {:induction false} FilledStep(e: Expr, k: nat)
    requires PlainFn(e) && k < |e.args|
    ensures PushToken(Filled(e, k), Some(e.args[k])) == (Filled(e, k + 1), Ok)
  {
    assert Params(e.args[..k]) + [Some(e.args[k])] == Params(e.args[..k + 1]);
  }

  lemma {:induction false} StuckBelow(s: State, it: ItemState, base: seq<ItemState>)
    requires Stuck(s, [it] + base) && Open(it)
    ensures Stuck(s, base)
  {
    var d := |s.stack| - |base|;
    assert s.stack[d - 1..] == [it] + base;
    assert s.stack[d - 1] == s.stack[d - 1..][0];
    assert s.stack[d..] == s.stack[d - 1..][1..];
  }

  /** Feeding a whole function: its finished item is moved down, or the parser is
      stuck above the items that were there. */
  lemma {:induction false} RunFn(s: State, e: Expr)
    requires KeepOn(s) && PlainFn(e)
    ensures !Nested(e) ==> Run(s, Tokens(e)) == Pop(WithCur(Opened(s, e), Filled(e, |e.args|)))
    ensures Nested(e) ==> Stuck(Run(s, Tokens(e)), Opened(s, e).stack)
    decreases e, |e.args| + 1
  {
    var o := Opened(s, e);
    assert Push(s, Some(e)) == o by {
      assert Params(e.args[..0]) == [];
    }
    assert Tokens(e)[1..] == TokensOf(e.args);
    assert e.args[0..] == e.args;
    RunArgs(o, e, 0);
  }

  lemma {:induction false} RunArgs(s: State, e: Expr, k: nat)
    requires KeepOn(s) && PlainFn(e) && k < |e.args| && s.cur == Some(Filled(e, k))
    ensures (forall i | k <= i < |e.args| :: !Offends(e.args[i])) ==>
              Run(s, TokensOf(e.args[k..])) == Pop(WithCur(s, Filled(e, |e.args|)))
    ensures (exists i :: k <= i < |e.args| && Offends(e.args[i])) ==>
              Stuck(Run(s, TokensOf(e.args[k..])), s.stack)
    decreases e, |e.args| - k
  {
    var a, rest := e.args[k], e.args[k + 1..];
    assert e.args[k..] == [a] + rest;
    assert TokensOf(e.args[k..]) == Tokens(a) + TokensOf(rest) by {
      assert e.args[k..][1..] == rest;
    }
    RunConcat(s, Tokens(a), TokensOf(rest));
    var s' := Run(s, Tokens(a));
    RunArg(s, e, k);
    if Offends(a) {
      FrozenOnceGivenUp(s', TokensOf(rest));
    } else if k + 1 < |e.args| {
      RunArgs(s', e, k + 1);
    } else {
      assert rest == [];
    }
  }

  lemma {:induction false} RunArg(s: State, e: Expr, k: nat)
    requires KeepOn(s) && PlainFn(e) && k < |e.args| && s.cur == Some(Filled(e, k))
    ensures !Offends(e.args[k]) ==> Run(s, Tokens(e.args[k])) == Taken(s, e, k)
    ensures Offends(e.args[k]) ==> Stuck(Run(s, Tokens(e.args[k])), s.stack)
    decreases e, 0
  {
    var a := e.args[k];
    if Leaf(a) {
      LeafIsTaken(s, e, k);
      assert Tokens(a)[1..] == [];
    } else {
      RunFn(s, a);
      var o := Opened(s, a);
      assert o.stack[1..] == s.stack;
      if Nested(a) {
        StuckBelow(Run(s, Tokens(a)), s.cur.value, s.stack);
      } else {
        FilledStep(e, k);
      }
    }
  }

  /** The clean-up discards unfinished function items down to the bottom one. */
  lemma {:induction false} PopAllUnwinds(s: State)
    requires s.status == BeforeSupported && s.cur.Some? && Open(s.cur.value)
    requires forall i | 0 <= i < |s.stack| - 1 :: Open(s.stack[i])
    ensures PopAllLoop(s) ==
            if s.stack == [] then s else State(Some(s.stack[|s.stack| - 1]), [], BeforeSupported)
    decreases |s.stack|
  {
    if s.stack != [] {
      var s' := State(Some(s.stack[0]), s.stack[1..], s.status);
      assert PopAllLoop(s) == PopAllLoop(s.(cur := None)) == PopAllLoop(s');
      if s'.stack != [] {
        PopAllUnwinds(s');
      }
    }
  }

  lemma {:induction false} StuckOnRoot(s: State, root: ItemState)
    requires Stuck(s, [root])
    ensures PopAll(s) == State(Some(root), [], BeforeSupported)
  {
    assert s.stack[|s.stack| - 1] == s.stack[|s.stack| - 1..][0];
    PopAllUnwinds(s);
  }

  /** A function operand arrives at the root AND/OR item. */
  lemma {:induction false} RunOperand(s: State, root: ItemState, e: Expr)
    requires KeepOn(s) && PlainFn(e) && s.cur == Some(root) && s.stack == []
    requires root.kind.LogicKind? && !root.finished
    ensures Nested(e) ==> PopAll(Run(s, Tokens(e))) == State(Some(root), [], BeforeSupported)
    ensures !Nested(e) && FnMatch(e).Done? ==>
              Run(s, Tokens(e)) == WithCur(s, root.(children := root.children + [FnMatch(e).value]))
    ensures !Nested(e) && FnMatch(e).Fail? ==>
              Run(s, Tokens(e)) == UpdateStat(WithCur(s, root.(ok := false)), PartUnsupported)
  {
    RunFn(s, e);
    assert [root] + s.stack == [root];
    if Nested(e) {
      StuckOnRoot(Run(s, Tokens(e)), root);
    } else {
      assert e.args[..|e.args|] == e.args;
    }
  }

  lemma {:induction false} RunAnd(s: State, root: ItemState, es: seq<Expr>)
    requires KeepOn(s) && s.cur == Some(root) && s.stack == [] && IsAnd(root) && !root.finished
    requires forall i | 0 <= i < |es| :: es[i].Fn? ==> PlainFn(es[i])
    ensures Finish(PopAll(Run(s, TokensOf(es) + [None]))) == AndScan(es, root.children, s.status)
    decreases |es|
  {
    if es == [] {
      assert (TokensOf(es) + [None])[1..] == [];
    } else {
      var e, rest := es[0], TokensOf(es[1..]) + [None];
      assert TokensOf(es) + [None] == Tokens(e) + rest;
      RunConcat(s, Tokens(e), rest);
      var s' := Run(s, Tokens(e));
      if e.Fn? {
        RunOperand(s, root, e);
        if Nested(e) {
          RunFn(s, e);
          FrozenOnceGivenUp(s', rest);
        } else {
          RunAnd(s', s'.cur.value, es[1..]);
        }
      } else {
        FirstTokenStops(s, e);
        FrozenOnceGivenUp(s', rest);
      }
    }
  }

  /** A leaf or a nested AND/OR is refused by the root item. */
  lemma {:induction false} FirstTokenStops(s: State, e: Expr)
    requires KeepOn(s) && s.cur.Some? && s.cur.value.kind.LogicKind? && !e.Fn?
    ensures Run(s, Tokens(e)) == UpdateStat(s, UnexpectedItem)
  {
    var rest := Tokens(e)[1..];
    assert Tokens(e) == [Some(e)] + rest;
    FrozenOnceGivenUp(Push(s, Some(e)), rest);
  }

  lemma {:induction false} RunOr(s: State, root: ItemState, es: seq<Expr>)
    requires s == State(Some(root), [], Supported) && IsOr(root) && !root.finished && root.ok
    requires forall i | 0 <= i < |es| :: es[i].Fn? ==> PlainFn(es[i])
    ensures Finish(PopAll(Run(s, TokensOf(es) + [None]))) == OrScan(es, root.children)
    decreases |es|
  {
    if es == [] {
      assert (TokensOf(es) + [None])[1..] == [];
    } else {
      var e, rest := es[0], TokensOf(es[1..]) + [None];
      assert TokensOf(es) + [None] == Tokens(e) + rest;
      RunConcat(s, Tokens(e), rest);
      var s' := Run(s, Tokens(e));
      if e.Fn? {
        RunOperand(s, root, e);
        if Nested(e) {
          RunFn(s, e);
          FrozenOnceGivenUp(s', rest);
        } else if FnMatch(e).Done? {
          RunOr(s', s'.cur.value, es[1..]);
        } else {
          FrozenOnceGivenUp(s', rest);
        }
      } else {
        FirstTokenStops(s, e);
        FrozenOnceGivenUp(s', rest);
      }
    }
  }

  /** An unfinished item has no match object. */
  lemma {:induction false} FinishOpen(s: State)
    requires s.status == BeforeSupported && s.cur.Some? && Open(s.cur.value)
    ensures Finish(s) == (BeforeSupported, All)
  {
  }

  lemma {:induction false} FinishStuck(s: State)
    requires Stuck(s, [])
    ensures Finish(PopAll(s)) == (BeforeSupported, All)
  {
    PopAllUnwinds(s);
    FinishOpen(PopAllLoop(s));
  }

  lemma {:induction false} FinishFilled(e: Expr)
    requires PlainFn(e)
    ensures Finish(PopAll(WithCur(Init, Filled(e, |e.args|)))) ==
            if FnMatch(e).Fail? then (BeforeSupported, All) else (Supported, FnMatch(e).value)
  {
    assert e.args[..|e.args|] == e.args;
  }

  lemma {:induction false} RunRootFn(e: Expr)
    requires PlainFn(e)
    ensures Parse(Tokens(e)) == Translate(e)
  {
    RunFn(Init, e);
    if Nested(e) {
      FinishStuck(Run(Init, Tokens(e)));
    } else {
      assert Run(Init, Tokens(e)) == WithCur(Init, Filled(e, |e.args|));
      FinishFilled(e);
    }
  }

  /** Main theorem: on the traversal of any regular condition the shift-reduce
      parser returns the structural translation, status and match object. */
  lemma {:induction false} ParserComputesTranslation(e: Expr)
    requires Regular(e)
    ensures Parse(Tokens(e)) == Translate(e)
  {
    match e
    case Fn(_, _) => RunRootFn(e);
    case Logic(op, es) =>
      var root := NewState(LogicKind(op));
      var s := State(Some(root), [], Supported);
      assert Tokens(e) == [Some(e)] + (TokensOf(es) + [None]);
      assert Tokens(e)[1..] == TokensOf(es) + [None];
      assert Push(Init, Some(e)) == s;
      if op == AndOp {
        RunAnd(s, root, es);
      } else {
        RunOr(s, root, es);
      }
    case _ =>
      assert Tokens(e)[1..] == [];
      assert Run(Init, Tokens(e)) == State(None, [], Unsupported);
  }
}
