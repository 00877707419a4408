/** The condition parser as a state machine over values: what each step of
    `sdb_cond_ctx` (driver/mysql/sdb_condition.cc) computes, and what every step
    keeps whatever tokens arrive. */
module CondMachine {
  import opened Options
  import opened Sql
  import opened Match
  import opened CondItem

  datatype Status = Supported | PartSupported | BeforeSupported | Unsupported

  /** `stack[0]` is the top of `item_list`. */
  datatype State = State(cur: Option<ItemState>, stack: seq<ItemState>, status: Status)

  const Init := State(None, [], Supported)

  predicate KeepOn(s: State) {
    s.status.Supported? || s.status.PartSupported?
  }

  function UpdateStat(s: State, rc: Rc): State {
    if rc.Ok? || !KeepOn(s) then s
    else if s.cur.None? || IsOr(s.cur.value) then s.(status := Unsupported)
    else if IsAnd(s.cur.value) && rc.PartUnsupported? then s.(status := PartSupported)
    else s.(status := BeforeSupported)
  }

  /** Moves the finished current item into the item below it, and on. */
  function Pop(s: State): State
    decreases |s.stack|
  {
    if !KeepOn(s) || s.stack == [] then s
    else if s.cur.None? then Pop(s.(cur := Some(s.stack[0]), stack := s.stack[1..]))
    else
      var (below, rc) := PushItem(s.stack[0], s.cur.value);
      var s' := State(Some(below), s.stack[1..], s.status);
      if !rc.Ok? then UpdateStat(s', rc)
      else if below.finished then Pop(s')
      else s'
  }

  function Push(s: State, tok: Option<Expr>): State {
    if !KeepOn(s) then s
    else if s.cur.Some? && (tok.None? || !tok.value.Fn?) then
      var (cur, rc) := PushToken(s.cur.value, tok);
      var s' := s.(cur := Some(cur));
      if !rc.Ok? then UpdateStat(s', rc)
      else if cur.finished then Pop(s')
      else s'
    else if tok.None? || !(tok.value.Fn? || tok.value.Logic?) then UpdateStat(s, CondUnsupported)
    else
      State(Some(NewState(KindOf(tok.value))), if s.cur.Some? then [s.cur.value] + s.stack else s.stack, s.status)
  }

  function Run(s: State, toks: seq<Option<Expr>>): State
    decreases |toks|
  {
    if toks == [] then s else Run(Push(s, toks[0]), toks[1..])
  }

  function PopAllLoop(s: State): State
    decreases |s.stack|, s.cur.Some?
  {
    if s.stack == [] then s
    else if s.cur.None? then PopAllLoop(s.(cur := Some(s.stack[0]), stack := s.stack[1..]))
    else if !s.cur.value.finished && !IsAnd(s.cur.value) then
      PopAllLoop(UpdateStat(s.(cur := None), Incompleted))
    else
      var cur := if s.cur.value.finished then s.cur.value else PushToken(s.cur.value, None).0;
      PopAllLoop(State(Some(PushItem(s.stack[0], cur).0), s.stack[1..], s.status))
  }

  function PopAll(s: State): State {
    if s.status.Unsupported? then State(None, [], s.status) else PopAllLoop(s)
  }

  /** `sdb_cond_ctx::to_bson`: the match object and the final status. */
  function Finish(s: State): (Status, Matcher) {
    if s.cur.None? then (s.status, All)
    else
      match ToMatch(s.cur.value)
      case Done(m) => (s.status, m)
      case Fail(rc) => (UpdateStat(s, rc).status, All)
  }

  /** `sdb_parse_condtion` followed by `to_bson`. */
  function Parse(toks: seq<Option<Expr>>): (Status, Matcher) {
    Finish(PopAll(Run(Init, toks)))
  }

  // ----- every token stream

  function Rank(st: Status): nat {
    match st
    case Supported => 0
    case PartSupported => 1
    case BeforeSupported => 2
    case Unsupported => 3
  }

  lemma {:induction false} FrozenOnceGivenUp(s: State, toks: seq<Option<Expr>>)
    requires !KeepOn(s)
    ensures Run(s, toks) == s
  {
    if toks != [] {
      FrozenOnceGivenUp(s, toks[1..]);
    }
  }

  lemma {:induction false} PopOnlyDegrades(s: State)
    ensures Rank(s.status) <= Rank(Pop(s).status)
    decreases |s.stack|
  {
    if KeepOn(s) && s.stack != [] {
      if s.cur.None? {
        PopOnlyDegrades(s.(cur := Some(s.stack[0]), stack := s.stack[1..]));
      } else {
        var (below, rc) := PushItem(s.stack[0], s.cur.value);
        PopOnlyDegrades(State(Some(below), s.stack[1..], s.status));
      }
    }
  }

  lemma {:induction false} PopAllOnlyDegrades(s: State)
    ensures Rank(s.status) <= Rank(PopAllLoop(s).status)
    decreases |s.stack|, s.cur.Some?
  {
    if s.stack != [] {
      if s.cur.None? {
        PopAllOnlyDegrades(s.(cur := Some(s.stack[0]), stack := s.stack[1..]));
      } else if !s.cur.value.finished && !IsAnd(s.cur.value) {
        PopAllOnlyDegrades(UpdateStat(s.(cur := None), Incompleted));
      } else {
        var cur := if s.cur.value.finished then s.cur.value else PushToken(s.cur.value, None).0;
        PopAllOnlyDegrades(State(Some(PushItem(s.stack[0], cur).0), s.stack[1..], s.status));
      }
    }
  }

  lemma {:induction false} RunOnlyDegrades(s: State, toks: seq<Option<Expr>>)
    ensures Rank(s.status) <= Rank(Run(s, toks).status)
    decreases |toks|
  {
    if toks != [] {
      RunOnlyDegrades(Push(s, toks[0]), toks[1..]);
      if KeepOn(s) && s.cur.Some? && (toks[0].None? || !toks[0].value.Fn?) {
        PopOnlyDegrades(s.(cur := Some(PushToken(s.cur.value, toks[0]).0)));
      }
    }
  }

  /** The status only ever moves towards Unsupported, over any token stream cut
      anywhere, through the clean-up and the final conversion. */
  lemma {:induction false} StatusIsMonotone(before: seq<Option<Expr>>, after: seq<Option<Expr>>)
    ensures Rank(Run(Init, before).status) <= Rank(Run(Init, before + after).status)
    ensures Rank(Run(Init, before).status) <= Rank(Parse(before).0)
    ensures !KeepOn(Run(Init, before)) ==> Run(Init, before + after) == Run(Init, before)
  {
    var s := Run(Init, before);
    RunConcat(Init, before, after);
    RunOnlyDegrades(s, after);
    PopAllOnlyDegrades(s);
    if !KeepOn(s) {
      FrozenOnceGivenUp(s, after);
    }
  }

  lemma {:induction false} RunConcat(s: State, a: seq<Option<Expr>>, b: seq<Option<Expr>>)
    ensures Run(s, a + b) == Run(Run(s, a), b)
    decreases |a|
  {
    if a == [] {
      assert a + b == b;
    } else {
      assert (a + b)[1..] == a[1..] + b;
      RunConcat(Push(s, a[0]), a[1..], b);
    }
  }

  /** An AND/OR item is created only when nothing is current, so it is always the
      bottom: no hypothesis on the tokens is needed. */
  predicate LogicOnlyAtBottom(s: State) {
    && (s.cur.None? ==> s.stack == [])
    && (s.stack != [] ==> s.cur.value.kind.FuncKind?)
    && forall i | 0 <= i < |s.stack| - 1 :: s.stack[i].kind.FuncKind?
  }

  lemma {:induction false} PopKeepsLogicAtBottom(s: State)
    requires LogicOnlyAtBottom(s)
    ensures LogicOnlyAtBottom(Pop(s))
    decreases |s.stack|
  {
    if KeepOn(s) && s.stack != [] {
      var (below, rc) := PushItem(s.stack[0], s.cur.value);
      PopKeepsLogicAtBottom(State(Some(below), s.stack[1..], s.status));
    }
  }

  lemma {:induction false} LogicStaysAtBottom(s: State, toks: seq<Option<Expr>>)
    requires LogicOnlyAtBottom(s)
    ensures LogicOnlyAtBottom(Run(s, toks))
    decreases |toks|
  {
    if toks != [] {
      if KeepOn(s) && s.cur.Some? && (toks[0].None? || !toks[0].value.Fn?) {
        PopKeepsLogicAtBottom(s.(cur := Some(PushToken(s.cur.value, toks[0]).0)));
      }
      LogicStaysAtBottom(Push(s, toks[0]), toks[1..]);
    }
  }
}
