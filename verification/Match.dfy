/** SequoiaDB match objects and what they accept. */
module Match {
  import opened Options
  import opened Sql

  datatype Matcher =
    | All                                               // {}
    | ColVal(col: string, op: CmpOp, v: int)            // { col: { $op: v } }
    | ColCol(col: string, op: CmpOp, other: string)     // { col: { $op: { $field: other } } }
    | ColIn(col: string, negated: bool, vs: seq<int>)   // { col: { $in / $nin: vs } }
    | ColNull(col: string, isNull: bool)                // { col: { $isnull: 1 / 0 } }
    | AllOf(ms: seq<Matcher>)                           // { $and: ms }
    | AnyOf(ms: seq<Matcher>)                           // { $or: ms }

  /** What a comparison operator answers when a field it names is absent. */
  type AbsentRule = (Matcher, Row) -> bool

  /** Comparison operators, `$ne` and `$nin` included, reject absent fields
      (SequoiaDB/engine/mth/mthMatchOpNode.cpp:2327-2365, 3089-3092). */
  const Rejecting: AbsentRule := (m, r) => false

  /** Some of the match objects accepts the row. */
  predicate AcceptsSome(ms: seq<Matcher>, row: Row, absent: AbsentRule) {
    exists k :: k in ms && Accepts(k, row, absent)
  }

  /** An `$or` without operands accepts every row, like an empty `$and`
      (SequoiaDB/engine/mth/mthMatchLogicNode.cpp:273-277). */
  predicate Accepts(m: Matcher, row: Row, absent: AbsentRule)
  {
    match m
    case All => true
    case ColVal(c, op, v) => if c in row then Compare(op, row[c], v) else absent(m, row)
    case ColCol(c, op, d) => if c in row && d in row then Compare(op, row[c], row[d]) else absent(m, row)
    case ColIn(c, negated, vs) => if c in row then (row[c] in vs) != negated else absent(m, row)
    case ColNull(c, isNull) => (c !in row) == isNull
    case AllOf(ms) => forall k | k in ms :: Accepts(k, row, absent)
    case AnyOf(ms) => ms == [] || AcceptsSome(ms, row, absent)
  }
}
