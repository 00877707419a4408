/** The items `sdb_cond_ctx` stacks: AND/OR items that collect match objects and
    function items that collect arguments (driver/mysql/sdb_item.cc).

    `ItemState` is the value of an item and the functions over it say what each
    operation computes; class `SdbItem` is the object itself, whose fields the
    operations update in place. */
module CondItem {
  import opened Options
  import opened Sql
  import opened Match

  /** The error codes the condition code returns; `Ok` is 0. */
  datatype Rc = Ok | UnknownItem | PartUnsupported | CondUnsupported | Incompleted | UnexpectedItem | TypeUnsupported

  type Error = rc: Rc | !rc.Ok? witness UnknownItem

  datatype Result<+T> = Done(value: T) | Fail(rc: Error)

  datatype ItemKind = LogicKind(op: LogicOp) | FuncKind(f: Func, args: seq<Expr>)

  /** `ok` and `children` belong to AND/OR items, `params`, `num` and `max` to
      function items.  A parameter is None when the NULL item was pushed. */
  datatype ItemState = ItemState(
    kind: ItemKind, finished: bool,
    ok: bool, children: seq<Matcher>,
    params: seq<Option<Expr>>, num: nat, max: nat)

  // ----- constants

  function ResultOf(e: Expr): ResultKind {
    match e
    case Const(_, res, _, _) => res
    case Fn(Unknown(_, _, res, _, _), _) => res
    case _ => IntResult
  }

  predicate ConvertsToDate(e: Expr) {
    match e
    case Const(v, _, dateOk, _) => v.Some? && dateOk
    case Fn(Unknown(_, _, _, dateOk, _), _) => ConstValue(e).Some? && dateOk
    case _ => false
  }

  /** `val_int()` and `val_real()` of NULL are 0. */
  function Image(v: Value): int {
    if v.None? then 0 else v.value
  }

  function NameOf(e: Expr): Name {
    match e
    case Const(_, _, _, name) => name
    case Fn(Unknown(_, _, _, _, name), _) => name
    case _ => Name(0, false)
  }

  /** Strings and decimals are written as the name of the item, whatever its value;
      except a placeholder compared with a binary column. */
  predicate ByName(kind: FieldKind, e: Expr) {
    match kind
    case Numeric => ResultOf(e).DecimalResult?
    case Text(binary) => !(binary && NameOf(e).placeholder)
    case _ => false
  }

  /** What the converters write for a constant. */
  function Written(kind: FieldKind, e: Expr): int {
    if ByName(kind, e) then NameOf(e).rank else Image(ConstValue(e))
  }

  /** `get_item_val`: the value to put into the match object for a constant
      compared with a field of the given kind. */
  function ItemVal(kind: FieldKind, item: Option<Expr>, inArray: bool): Result<int> {
    if item.None? || !IsConst(item.value) then Fail(UnexpectedItem)
    else
      var e := item.value;
      match kind
      case Numeric =>
        if ResultOf(e).IntResult? || ResultOf(e).RealResult? || ResultOf(e).DecimalResult?
        then Done(Written(kind, e)) else Fail(UnexpectedItem)
      case Text(binary) =>
        if !ResultOf(e).StringResult? then Fail(UnexpectedItem)
        else if binary && inArray then Fail(TypeUnsupported)
        else Done(Written(kind, e))
      case Date =>
        if !ConvertsToDate(e) then Fail(UnexpectedItem)
        else if inArray then Fail(TypeUnsupported)
        else Done(Written(kind, e))
      case DateTime =>
        if !ConvertsToDate(e) then Fail(UnexpectedItem) else Done(Written(kind, e))
      case OtherKind => Fail(TypeUnsupported)
  }

  function ItemVals(kind: FieldKind, items: seq<Option<Expr>>): Result<seq<int>> {
    if items == [] then Done([])
    else
      match ItemVal(kind, items[0], true)
      case Fail(rc) => Fail(rc)
      case Done(v) =>
        match ItemVals(kind, items[1..])
        case Fail(rc) => Fail(rc)
        case Done(vs) => Done([v] + vs)
  }

  // ----- match objects of finished function items

  /** `inverse_name()`: the operator for a constant on the left. */
  function Inverse(op: CmpOp): CmpOp {
    match op
    case Eq => Eq
    case Ne => Ne
    case Lt => Gt
    case Le => Ge
    case Gt => Lt
    case Ge => Le
  }

  predicate IsField(p: Option<Expr>) {
    p.Some? && p.value.Field?
  }

  function ColCmp(field: Expr, op: CmpOp, item: Option<Expr>): Result<Matcher>
    requires field.Field?
  {
    match ItemVal(field.kind, item, false)
    case Fail(rc) => Fail(rc)
    case Done(v) => Done(ColVal(field.col, op, v))
  }

  function CmpMatch(op: CmpOp, p: Option<Expr>, q: Option<Expr>): Result<Matcher> {
    if p.None? || q.None? then Fail(UnexpectedItem)
    else if IsField(p) && IsField(q) then Done(ColCol(p.value.col, op, q.value.col))
    else if IsField(p) then ColCmp(p.value, op, q)
    else if IsField(q) then ColCmp(q.value, Inverse(op), p)
    else Fail(UnexpectedItem)
  }

  function BetweenMatch(negated: bool, p: Option<Expr>, lo: Option<Expr>, hi: Option<Expr>): Result<Matcher> {
    if !IsField(p) then Fail(UnexpectedItem)
    else
      match ColCmp(p.value, if negated then Lt else Ge, lo)
      case Fail(rc) => Fail(rc)
      case Done(start) =>
        match ColCmp(p.value, if negated then Gt else Le, hi)
        case Fail(rc) => Fail(rc)
        case Done(end) => Done(if negated then AnyOf([start, end]) else AllOf([start, end]))
  }

  function InMatch(negated: bool, p: Option<Expr>, items: seq<Option<Expr>>): Result<Matcher> {
    if !IsField(p) then Fail(UnexpectedItem)
    else
      match ItemVals(p.value.kind, items)
      case Fail(rc) => Fail(rc)
      case Done(vs) => Done(ColIn(p.value.col, negated, vs))
  }

  function NullMatch(isNull: bool, p: Option<Expr>): Result<Matcher> {
    if IsField(p) then Done(ColNull(p.value.col, isNull)) else Fail(UnknownItem)
  }

  /** `to_bson` of a finished function item. */
  function FuncMatch(f: Func, params: seq<Option<Expr>>): Result<Matcher> {
    match f
    case Cmp(op) => if |params| == 2 then CmpMatch(op, params[0], params[1]) else Fail(Incompleted)
    case Between(n) => if |params| == 3 then BetweenMatch(n, params[0], params[1], params[2]) else Fail(Incompleted)
    case IsNull => if |params| == 1 then NullMatch(true, params[0]) else Fail(Incompleted)
    case IsNotNull => if |params| == 1 then NullMatch(false, params[0]) else Fail(Incompleted)
    case In(n) => if params != [] then InMatch(n, params[0], params[1..]) else Fail(Incompleted)
    case Unknown(_, _, _, _, _) => Fail(UnknownItem)
  }

  // ----- what the operations of an item compute

  /** `para_num_max` as the constructors set it; `n` is the argument count. */
  function ParaMax(f: Func, n: nat): nat {
    match f
    case Cmp(_) => 2
    case Between(_) => 3
    case IsNull => 1
    case IsNotNull => 1
    case In(_) => n
    case Unknown(_, _, _, _, _) => n
  }

  function KindOf(e: Expr): ItemKind
    requires e.Fn? || e.Logic?
  {
    if e.Logic? then LogicKind(e.op) else FuncKind(e.f, e.args)
  }

  function MaxOf(kind: ItemKind): nat {
    if kind.FuncKind? then ParaMax(kind.f, |kind.args|) else 1
  }

  function NewState(kind: ItemKind): ItemState {
    ItemState(kind, false, true, [], [], 0, MaxOf(kind))
  }

  predicate IsUnknown(it: ItemState) {
    it.kind.FuncKind? && it.kind.f.Unknown?
  }

  predicate IsAnd(it: ItemState) {
    it.kind.LogicKind? && it.kind.op == AndOp
  }

  predicate IsOr(it: ItemState) {
    it.kind.LogicKind? && it.kind.op == OrOp
  }

  function ToMatch(it: ItemState): Result<Matcher> {
    match it.kind
    case LogicKind(AndOp) => Done(AllOf(it.children))
    case LogicKind(OrOp) => if it.ok then Done(AnyOf(it.children)) else Fail(Incompleted)
    case FuncKind(f, _) =>
      if f.Unknown? then Fail(UnknownItem)
      else if !it.finished then Fail(Incompleted)
      else FuncMatch(f, it.params)
  }

  /** `push( Item * )`; None is the NULL item. */
  function PushToken(it: ItemState, tok: Option<Expr>): (ItemState, Rc) {
    if it.kind.LogicKind? then
      if tok.Some? then (it, UnexpectedItem) else (it.(finished := true), Ok)
    else if it.finished then
      (it, if it.kind.f.Unknown? then UnexpectedItem else CondUnsupported)
    else
      (it.(params := if it.kind.f.Unknown? then it.params else it.params + [tok],
           num := it.num + 1,
           finished := it.num + 1 >= it.max), Ok)
  }

  /** `push( sdb_item * )`. */
  function PushItem(it: ItemState, child: ItemState): (ItemState, Rc) {
    if it.kind.LogicKind? then
      if it.finished then (it.(ok := false), UnexpectedItem)
      else
        match ToMatch(child)
        case Fail(_) => (it.(ok := false), PartUnsupported)
        case Done(m) => (it.(children := it.children + [m]), Ok)
    else if !IsUnknown(child) then (it, UnexpectedItem)
    else PushToken(it, Some(Fn(child.kind.f, child.kind.args)))
  }

  /** What holds of every item built by these operations. */
  predicate WellBuilt(it: ItemState) {
    it.kind.FuncKind? ==>
      && it.max == MaxOf(it.kind)
      && (!it.kind.f.Unknown? ==> |it.params| == it.num)
      && (if it.finished then it.num == (if it.max == 0 then 1 else it.max) else it.num == 0 || it.num < it.max)
  }
}
