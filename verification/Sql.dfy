/** The SQL side of condition pushdown: the items MySQL hands to the storage
    engine, and their three-valued meaning over a row.

    A row maps column names to values; a NULL column is an absent key, exactly as
    `row_to_obj` leaves NULL fields out of the stored record.  Values are
    integers standing for ranks in the column's order. */
module Sql {
  import opened Options

  type Value = Option<int>
  type Row = map<string, int>

  datatype CmpOp = Eq | Ne | Lt | Le | Gt | Ge
  datatype LogicOp = AndOp | OrOp

  /** The field types `get_item_val` tells apart. */
  datatype FieldKind = Numeric | Text(binary: bool) | Date | DateTime | OtherKind

  /** `Item::result_type()`. */
  datatype ResultKind = IntResult | RealResult | DecimalResult | StringResult | RowResult

  /** An item's name, `item_name`, read as a value of the column it is compared with;
      a placeholder of a prepared statement is named "?". */
  datatype Name = Name(rank: int, placeholder: bool)

  /** `Unknown` is every function type without a case of its own in
      `create_sdb_item`; what it computes is part of the item. */
  datatype Func =
    | Cmp(op: CmpOp)
    | Between(negated: bool)
    | IsNull
    | IsNotNull
    | In(negated: bool)
    | Unknown(den: seq<Value> -> Value, deterministic: bool, res: ResultKind, dateOk: bool, name: Name)

  datatype Expr =
    | Field(col: string, kind: FieldKind)
    | Const(val: Value, cres: ResultKind, cdateOk: bool, cname: Name)
    | Opaque(oden: Row -> Value)
    | Fn(f: Func, args: seq<Expr>)
    | Logic(op: LogicOp, operands: seq<Expr>)

  // ----- three-valued logic; NULL is None, 0 is false, anything else is true

  predicate Truth(v: Value) {
    v.Some? && v.value != 0
  }

  function OfBool(b: bool): Value {
    Some(if b then 1 else 0)
  }

  function Not(v: Value): Value {
    if v.None? then None else OfBool(v.value == 0)
  }

  function And(v: Value, w: Value): Value {
    if v == Some(0) || w == Some(0) then Some(0)
    else if v.None? || w.None? then None
    else Some(1)
  }

  function Or(v: Value, w: Value): Value {
    if Truth(v) || Truth(w) then Some(1)
    else if v.None? || w.None? then None
    else Some(0)
  }

  predicate Compare(op: CmpOp, x: int, y: int) {
    match op
    case Eq => x == y
    case Ne => x != y
    case Lt => x < y
    case Le => x <= y
    case Gt => x > y
    case Ge => x >= y
  }

  function CmpValue(op: CmpOp, v: Value, w: Value): Value {
    if v.None? || w.None? then None else OfBool(Compare(op, v.value, w.value))
  }

  function BetweenValue(v: Value, lo: Value, hi: Value): Value {
    And(CmpValue(Ge, v, lo), CmpValue(Le, v, hi))
  }

  function InValue(v: Value, vs: seq<Value>): Value {
    if vs == [] then Some(0) else Or(CmpValue(Eq, v, vs[0]), InValue(v, vs[1..]))
  }

  function AndAll(vs: seq<Value>): Value {
    if vs == [] then Some(1) else And(vs[0], AndAll(vs[1..]))
  }

  function OrAll(vs: seq<Value>): Value {
    if vs == [] then Some(0) else Or(vs[0], OrAll(vs[1..]))
  }

  // ----- evaluation

  function Eval(e: Expr, row: Row): Value
    decreases e, 1
  {
    match e
    case Field(col, _) => if col in row then Some(row[col]) else None
    case Const(v, _, _, _) => v
    case Opaque(den) => den(row)
    case Fn(f, args) => Apply(f, EvalAll(args, row))
    case Logic(AndOp, es) => AndAll(EvalAll(es, row))
    case Logic(OrOp, es) => OrAll(EvalAll(es, row))
  }

  function EvalAll(es: seq<Expr>, row: Row): (vs: seq<Value>)
    ensures |vs| == |es|
    ensures forall i :: 0 <= i < |es| ==> vs[i] == Eval(es[i], row)
    decreases es, 0
  {
    if es == [] then [] else [Eval(es[0], row)] + EvalAll(es[1..], row)
  }

  /** A recognised function given the wrong number of arguments has no SQL
      meaning; NULL is taken. */
  function Apply(f: Func, vs: seq<Value>): Value {
    match f
    case Cmp(op) => if |vs| == 2 then CmpValue(op, vs[0], vs[1]) else None
    case Between(negated) =>
      if |vs| != 3 then None
      else if negated then Not(BetweenValue(vs[0], vs[1], vs[2]))
      else BetweenValue(vs[0], vs[1], vs[2])
    case IsNull => if |vs| == 1 then OfBool(vs[0].None?) else None
    case IsNotNull => if |vs| == 1 then OfBool(vs[0].Some?) else None
    case In(negated) =>
      if vs == [] then None
      else if negated then Not(InValue(vs[0], vs[1..]))
      else InValue(vs[0], vs[1..])
    case Unknown(den, _, _, _, _) => den(vs)
  }

  /** The WHERE clause keeps a row when its condition is TRUE, not NULL. */
  predicate Selects(e: Expr, row: Row) {
    Truth(Eval(e, row))
  }

  // ----- constant items

  /** `Item::const_item()`. */
  predicate IsConst(e: Expr) {
    match e
    case Field(_, _) => false
    case Const(_, _, _, _) => true
    case Opaque(_) => false
    case Fn(f, args) => (f.Unknown? ==> f.deterministic) && forall i | 0 <= i < |args| :: IsConst(args[i])
    case Logic(_, es) => forall i | 0 <= i < |es| :: IsConst(es[i])
  }

  /** The value of a constant item, read without a row. */
  function ConstValue(e: Expr): Value {
    Eval(e, map[])
  }

  lemma {:induction false} ConstIgnoresRow(e: Expr, row: Row)
    requires IsConst(e)
    ensures Eval(e, row) == ConstValue(e)
  {
    match e
    case Const(_, _, _, _) =>
    case Fn(_, args) => ConstsIgnoreRow(args, row);
    case Logic(_, es) => ConstsIgnoreRow(es, row);
  }

  lemma {:induction false} ConstsIgnoreRow(es: seq<Expr>, row: Row)
    requires forall i | 0 <= i < |es| :: IsConst(es[i])
    ensures EvalAll(es, row) == EvalAll(es, map[])
  {
    if es != [] {
      ConstIgnoresRow(es[0], row);
      ConstsIgnoreRow(es[1..], row);
    }
  }

  // ----- truth of the connectives

  lemma {:induction false} AndAllTruth(vs: seq<Value>)
    ensures Truth(AndAll(vs)) <==> forall v | v in vs :: Truth(v)
  {
    if vs != [] {
      AndAllTruth(vs[1..]);
      assert vs == [vs[0]] + vs[1..];
    }
  }

  lemma {:induction false} OrAllTruth(vs: seq<Value>)
    ensures Truth(OrAll(vs)) <==> exists v :: v in vs && Truth(v)
  {
    if vs != [] {
      OrAllTruth(vs[1..]);
      assert vs == [vs[0]] + vs[1..];
    }
  }
}
