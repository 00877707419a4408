/** The parser's objects: `sdb_item`s updated in place and the context that owns
    them.  Every method is proved against the machine over values, and every item
    a context creates is owned once and deleted once. */
module CondContext {
  import opened Options
  import opened Sql
  import opened Match
  import opened CondItem
  import opened CondMachine
  import opened CondTranslate

  ghost function Prepend(vs: seq<int>, r: Result<seq<int>>): Result<seq<int>> {
    match r
    case Fail(rc) => Fail(rc)
    case Done(rest) => Done(vs + rest)
  }

  lemma {:induction false} PrependOne(vs: seq<int>, v: int, rest: seq<int>)
    ensures Prepend(vs, Done([v] + rest)) == Prepend(vs + [v], Done(rest))
  {
    assert vs + ([v] + rest) == vs + [v] + rest;
  }

  class SdbItem {
    const kind: ItemKind
    const max: nat
    var finished: bool
    var ok: bool
    var children: seq<Matcher>
    var params: seq<Option<Expr>>
    var num: nat
    var deletes: nat  // how often `delete` was applied to this object

    ghost function View(): ItemState
      reads this
    {
      ItemState(kind, finished, ok, children, params, num, max)
    }

    ghost predicate Valid()
      reads this
    {
      WellBuilt(View())
    }

    constructor (k: ItemKind)
      ensures Valid() && View() == NewState(k) && deletes == 0
    {
      kind, max := k, MaxOf(k);
      finished, ok := false, true;
      children, params, num, deletes := [], [], 0, 0;
    }

    method Delete()
      modifies this`deletes
      ensures deletes == old(deletes) + 1
    {
      deletes := deletes + 1;
    }

    method PushToken(tok: Option<Expr>) returns (rc: Rc)
      requires Valid()
      modifies this`finished, this`params, this`num
      ensures Valid() && (View(), rc) == CondItem.PushToken(old(View()), tok)
    {
      match kind
      case LogicKind(_) =>
        if tok.Some? {
          return UnexpectedItem;
        }
        finished := true;
        return Ok;
      case FuncKind(f, _) =>
        if finished {
          return if f.Unknown? then UnexpectedItem else CondUnsupported;
        }
        if !f.Unknown? {
          params := params + [tok];
        }
        num := num + 1;
        if num >= max {
          finished := true;
        }
        return Ok;
    }

    /** Takes over `item` and deletes it, or refuses it. */
    method PushItem(item: SdbItem) returns (rc: Rc)
      requires item != this && Valid() && item.Valid()
      modifies this`finished, this`params, this`num, this`ok, this`children
      modifies item`params, item`num, item`deletes
      ensures Valid() && (View(), rc) == CondItem.PushItem(old(View()), old(item.View()))
      ensures item.deletes == old(item.deletes) + if rc.Ok? then 1 else 0
    {
      match kind
      case LogicKind(_) =>
        if finished {
          ok := false;
          return UnexpectedItem;
        }
        var r := item.ToBson();
        if r.Fail? {
          ok := false;
          return PartUnsupported;
        }
        item.Delete();
        children := children + [r.value];
        return Ok;
      case FuncKind(_, _) =>
        if !(item.kind.FuncKind? && item.kind.f.Unknown?) {
          return UnexpectedItem;
        }
        rc := PushToken(Some(Fn(item.kind.f, item.kind.args)));
        if rc.Ok? {
          item.Delete();
        }
    }

    /** The match object; takes the parameters off the item while reading them. */
    method ToBson() returns (r: Result<Matcher>)
      requires Valid()
      modifies this`params, this`num
      ensures r == ToMatch(old(View()))
    {
      match kind
      case LogicKind(AndOp) => r := Done(AllOf(children));
      case LogicKind(OrOp) => r := if ok then Done(AnyOf(children)) else Fail(Incompleted);
      case FuncKind(f, _) =>
        if f.Unknown? {
          return Fail(UnknownItem);
        }
        if !finished {
          return Fail(Incompleted);
        }
        match f {
          case Cmp(op) => r := CmpToBson(op);
          case Between(negated) => r := BetweenToBson(negated);
          case IsNull => r := NullMatch(true, params[0]); params := params[1..];
          case IsNotNull => r := NullMatch(false, params[0]); params := params[1..];
          case In(negated) => r := InToBson(negated);
        }
    }

    method CmpToBson(op: CmpOp) returns (r: Result<Matcher>)
      requires |params| == num == 2
      modifies this`params, this`num
      ensures r == CmpMatch(op, old(params[0]), old(params[1]))
    {
      ghost var p, q := params[0], params[1];
      var inverse, withField := false, false;
      var field, val: Option<Expr> := None, None;
      while num != 0
        invariant |params| == num <= 2
        invariant num == 2 ==> params == [p, q] && field.None? && val.None? && !inverse
        invariant num == 1 ==> params == [q] && p.Some? && inverse == !p.value.Field?
        invariant num == 1 ==> field == (if inverse then None else p) && val == (if inverse then p else None)
        invariant num == 0 ==> p.Some? && q.Some? && inverse == !p.value.Field?
        invariant num == 0 ==> withField == (IsField(p) && IsField(q))
        invariant num == 0 ==> IsField(field) && (if inverse then field == q && val == p else field == p && val == q)
        invariant num != 0 ==> !withField
      {
        num := num - 1;
        var item := params[0];
        params := params[1..];
        if item.None? {
          return Fail(UnexpectedItem);
        } else if !item.value.Field? {
          if field.None? {
            inverse := true;
          }
          if val.Some? {
            return Fail(UnexpectedItem);
          }
          val := item;
        } else if field.Some? {
          // of two parameters the first was the field, so val is still unset
          val := item;
          withField := true;
        } else {
          field := item;
        }
      }
      var name := if inverse then Inverse(op) else op;
      if withField {
        return Done(ColCol(field.value.col, name, val.value.col));
      }
      var v := ItemVal(field.value.kind, val, false);
      if v.Fail? {
        return Fail(v.rc);
      }
      return Done(ColVal(field.value.col, name, v.value));
    }

    method BetweenToBson(negated: bool) returns (r: Result<Matcher>)
      requires |params| == num == 3
      modifies this`params
      ensures r == BetweenMatch(negated, old(params[0]), old(params[1]), old(params[2]))
    {
      var field := params[0];
      params := params[1..];
      if !IsField(field) {
        return Fail(UnexpectedItem);
      }
      var lo := params[0];
      params := params[1..];
      var hi := params[0];
      params := params[1..];
      var start := ItemVal(field.value.kind, lo, false);
      if start.Fail? {
        return Fail(start.rc);
      }
      var end := ItemVal(field.value.kind, hi, false);
      if end.Fail? {
        return Fail(end.rc);
      }
      var col := field.value.col;
      if negated {
        r := Done(AnyOf([ColVal(col, Lt, start.value), ColVal(col, Gt, end.value)]));
      } else {
        r := Done(AllOf([ColVal(col, Ge, start.value), ColVal(col, Le, end.value)]));
      }
    }

    method InToBson(negated: bool) returns (r: Result<Matcher>)
      requires |params| == num > 0
      modifies this`params, this`num
      ensures r == InMatch(negated, old(params[0]), old(params[1..]))
    {
      ghost var items := params[1..];
      var field := params[0];
      params := params[1..];
      num := num - 1;
      if !IsField(field) {
        return Fail(UnexpectedItem);
      }
      var vs := [];
      assert forall ks: seq<int> :: [] + ks == ks && ks + [] == ks;
      while num != 0
        invariant |params| == num <= |items|
        invariant ItemVals(field.value.kind, items) == Prepend(vs, ItemVals(field.value.kind, params))
      {
        var item := params[0];
        params := params[1..];
        num := num - 1;
        var v := ItemVal(field.value.kind, item, true);
        if v.Fail? {
          return Fail(v.rc);
        }
        ghost var rest := ItemVals(field.value.kind, params);
        if rest.Done? {
          PrependOne(vs, v.value, rest.value);
        }
        vs := vs + [v.value];
      }
      return Done(ColIn(field.value.col, negated, vs));
    }
  }

  ghost function Views(items: seq<SdbItem>): (vs: seq<ItemState>)
    reads items
    ensures |vs| == |items| && forall i | 0 <= i < |items| :: vs[i] == items[i].View()
  {
    seq(|items|, i requires 0 <= i < |items| reads items => items[i].View())
  }

  /** The current item pushed into the one below it. */
  ghost function Merged(s: State): (State, Rc)
    requires s.cur.Some? && s.stack != []
  {
    var (below, rc) := PushItem(s.stack[0], s.cur.value);
    (State(Some(below), s.stack[1..], s.status), rc)
  }

  class SdbCondCtx {
    var cur: SdbItem?
    var stack: seq<SdbItem>
    var status: Status
    ghost var created: set<SdbItem>  // every item this context ever allocated

    ghost predicate Holds(it: SdbItem)
      reads this
    {
      it == cur || it in stack
    }

    /** Each item ever created is held exactly once and not deleted, or not held
        and deleted exactly once. */
    ghost predicate OwnedOnce()
      reads this, created
    {
      && (cur != null ==> cur in created) && (forall i | 0 <= i < |stack| :: stack[i] in created)
      && (forall i, j | 0 <= i < j < |stack| :: stack[i] != stack[j])
      && (cur != null ==> cur !in stack)
      && (forall it | it in created :: it.deletes == if Holds(it) then 0 else 1)
    }

    ghost predicate Owned()
      reads this, created
    {
      OwnedOnce() && forall it | it in created && Holds(it) :: it.Valid()
    }

    ghost function View(): State
      requires OwnedOnce()
      reads this, created
    {
      State(if cur == null then None else Some(cur.View()), Views(stack), status)
    }

    constructor ()
      ensures Owned() && View() == Init && created == {}
    {
      cur, stack, status, created := null, [], Supported, {};
    }

    method UpdateStat(rc: Rc)
      requires OwnedOnce()
      modifies this`status
      ensures OwnedOnce() && View() == CondMachine.UpdateStat(old(View()), rc)
      ensures old(Owned()) ==> Owned()
    {
      if rc.Ok? || status.Unsupported? || status.BeforeSupported? {
        return;
      }
      if cur == null || (cur.kind.LogicKind? && cur.kind.op == OrOp) {
        status := Unsupported;
      } else if cur.kind.LogicKind? && cur.kind.op == AndOp && rc.PartUnsupported? {
        status := PartSupported;
      } else {
        status := BeforeSupported;
      }
    }

    /** Pops the item below the current one and pushes the current one into it;
        whoever keeps it, the pushed item is deleted once. */
    method Merge() returns (rc: Rc)
      requires Owned() && cur != null && stack != []
      modifies this`cur, this`stack, created
      ensures Owned() && cur != null && |stack| == |old(stack)| - 1
      ensures (View(), rc) == Merged(old(View()))
    {
      var item := cur;
      cur, stack := stack[0], stack[1..];
      rc := cur.PushItem(item);
      if !rc.Ok? {
        item.Delete();
      }
      assert Views(stack) == old(Views(stack))[1..];
    }

    /** `cur_item = item_list.pop()` when there is no current item. */
    method Raise()
      requires Owned() && cur == null && stack != []
      modifies this`cur, this`stack
      ensures Owned() && cur != null && |stack| == |old(stack)| - 1
      ensures View() == State(Some(old(View()).stack[0]), old(View()).stack[1..], old(status))
    {
      cur, stack := stack[0], stack[1..];
    }

    method Pop()
      requires Owned()
      modifies this`cur, this`stack, this`status, created
      ensures Owned() && View() == CondMachine.Pop(old(View()))
      decreases |stack|
    {
      if status.Unsupported? || status.BeforeSupported? || stack == [] {
        return;
      }
      while stack != []
        invariant Owned() && KeepOn(View()) && |stack| <= |old(stack)|
        invariant CondMachine.Pop(View()) == CondMachine.Pop(old(View()))
        decreases |stack|
      {
        if cur == null {
          Raise();
        } else {
          var rc := Merge();
          if !rc.Ok? {
            UpdateStat(rc);
          } else if cur.finished {
            Pop();
          }
          return;
        }
      }
    }

    /** Pushes the token into the current item. */
    method Offer(tok: Option<Expr>) returns (rc: Rc)
      requires Owned() && cur != null
      modifies created
      ensures Owned()
      ensures var (it, rc') := CondItem.PushToken(old(View()).cur.value, tok);
              rc == rc' && View() == old(View()).(cur := Some(it))
    {
      rc := cur.PushToken(tok);
    }

    /** `item_list.push_front( cur_item )`. */
    method Shelve()
      requires Owned() && cur != null
      modifies this`cur, this`stack
      ensures Owned() && cur == null
      ensures View() == State(None, [old(View()).cur.value] + old(View()).stack, old(status))
    {
      ghost var views := [cur.View()] + Views(stack);
      stack := [cur] + stack;
      assert Views(stack) == views;
      cur := null;
    }

    method Adopt(item: SdbItem)
      requires Owned() && cur == null && item !in created && item.deletes == 0 && item.Valid()
      modifies this`cur, this`created
      ensures Owned() && cur == item && created == old(created) + {item}
      ensures View() == old(View()).(cur := Some(item.View()))
    {
      cur := item;
      created := created + {item};
    }

    /** Opens a new item above the current one. */
    method Open(e: Expr)
      requires Owned() && (e.Fn? || e.Logic?)
      modifies this`cur, this`stack, this`created
      ensures Owned() && fresh(created - old(created))
      ensures View() == State(Some(NewState(KindOf(e))),
                              if old(cur) == null then old(View()).stack
                              else [old(View()).cur.value] + old(View()).stack,
                              old(status))
    {
      if cur != null {
        Shelve();
      }
      var item := new SdbItem(KindOf(e));
      Adopt(item);
    }

    method Push(tok: Option<Expr>)
      requires Owned()
      modifies this, created
      ensures Owned() && fresh(created - old(created))
      ensures View() == CondMachine.Push(old(View()), tok)
    {
      if status.Unsupported? || status.BeforeSupported? {
        return;
      }
      if cur != null && (tok.None? || !tok.value.Fn?) {
        var rc := Offer(tok);
        if !rc.Ok? {
          UpdateStat(rc);
        } else if cur.finished {
          Pop();
        }
      } else if tok.None? || !(tok.value.Fn? || tok.value.Logic?) {
        UpdateStat(CondUnsupported);
      } else {
        Open(tok.value);
      }
    }

    /** Deletes the current item. */
    method Discard()
      requires Owned() && cur != null
      modifies this`cur, created
      ensures Owned() && cur == null && View() == old(View()).(cur := None)
    {
      cur.Delete();
      cur := null;
    }

    /** Also the destructor: every item ever created has now been deleted once. */
    method Clear()
      requires OwnedOnce()
      modifies this`cur, this`stack, created
      ensures OwnedOnce() && cur == null && stack == []
      ensures forall it | it in created :: it.deletes == 1
    {
      if cur != null {
        cur.Delete();
        cur := null;
      }
      while stack != []
        invariant OwnedOnce() && cur == null
        decreases |stack|
      {
        var item := stack[0];
        stack := stack[1..];
        item.Delete();
      }
    }

    method PopAll()
      requires Owned()
      modifies this`cur, this`stack, this`status, created
      ensures Owned() && View() == CondMachine.PopAll(old(View()))
    {
      if status.Unsupported? {
        Clear();
        return;
      }
      while stack != []
        invariant Owned()
        invariant PopAllLoop(View()) == PopAllLoop(old(View()))
        decreases |stack|, cur != null
      {
        if cur == null {
          Raise();
        } else if !cur.finished && !(cur.kind.LogicKind? && cur.kind.op == AndOp) {
          Discard();
          UpdateStat(Incompleted);
        } else {
          if !cur.finished {
            var _ := Offer(None);
          }
          var _ := Merge();
        }
      }
    }

    /** The match object of what was parsed; the final status is left in `status`. */
    method ToBson() returns (m: Matcher)
      requires Owned()
      modifies this`status, created
      ensures OwnedOnce() && (status, m) == Finish(old(View()))
    {
      if cur == null {
        return All;
      }
      var r := cur.ToBson();
      if r.Done? {
        return r.value;
      }
      UpdateStat(r.rc);
      m := All;
    }

    /** `sdb_parse_condtion`: one call of `sdb_traverse_cond` for each item of the
        traversal, then the clean-up. */
    method ParseCondition(toks: seq<Option<Expr>>)
      requires Owned()
      modifies this, created
      ensures Owned() && fresh(created - old(created))
      ensures View() == CondMachine.PopAll(Run(old(View()), toks))
    {
      var i := 0;
      while i < |toks|
        invariant 0 <= i <= |toks| && Owned() && fresh(created - old(created))
        invariant Run(View(), toks[i..]) == Run(old(View()), toks)
      {
        if !(status.Unsupported? || status.BeforeSupported?) {
          Push(toks[i]);
        }
        i := i + 1;
      }
      PopAll();
    }
  }

  class HaSdb {
    var condition: Matcher

    /** `cond_push`: keeps the match object and returns the condition MySQL still
        has to check, None when it may drop its own filter. */
    method CondPush(cond: Expr, usesOtherTables: bool) returns (remain: Option<Expr>)
      modifies this
      ensures usesOtherTables ==> remain == Some(cond) && condition == old(condition)
      ensures !usesOtherTables ==>
                var (st, m) := Parse(Tokens(cond));
                condition == m && remain == if st == Supported then None else Some(cond)
    {
      remain := Some(cond);
      if usesOtherTables {
        return;
      }
      var ctx := new SdbCondCtx();
      ctx.ParseCondition(Tokens(cond));
      condition := ctx.ToBson();
      if ctx.status == Supported {
        remain := None;
      }
      ctx.Clear();
    }
  }
}
