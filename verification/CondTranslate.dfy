/** Condition pushdown without the machine: a recursion over the condition tree
    that says which operands are translated and what status results. */
module CondTranslate {
  import opened Options
  import opened Sql
  import opened Match
  import opened CondItem
  import opened CondMachine

  // ----- the token stream of a condition (MySQL's prefix traversal)

  /** An AND/OR item, its operands, then NULL; a function item, then its
      arguments; a leaf. */
  function Tokens(e: Expr): seq<Option<Expr>>
    decreases e, 1
  {
    match e
    case Fn(_, args) => [Some(e)] + TokensOf(args)
    case Logic(_, es) => [Some(e)] + TokensOf(es) + [None]
    case _ => [Some(e)]
  }

  function TokensOf(es: seq<Expr>): seq<Option<Expr>>
    decreases es, 0
  {
    if es == [] then [] else Tokens(es[0]) + TokensOf(es[1..])
  }

  // ----- hypotheses on the tree

  predicate Leaf(e: Expr) {
    e.Field? || e.Const? || e.Opaque?
  }

  /** The number of arguments SQL gives a function; IN and other functions take one or more. */
  predicate RightArity(f: Func, n: nat) {
    match f
    case Cmp(_) => n == 2
    case Between(_) => n == 3
    case IsNull => n == 1
    case IsNotNull => n == 1
    case In(_) => n > 0
    case Unknown(_, _, _, _, _) => n > 0
  }

  /** A function tree in which no AND/OR occurs and every function has the arguments SQL
      gives it, at least one. */
  predicate PlainFn(e: Expr) {
    && e.Fn?
    && RightArity(e.f, |e.args|)
    && forall i | 0 <= i < |e.args| :: Leaf(e.args[i]) || PlainFn(e.args[i])
  }

  /** Every function operand of the root, or the root itself, is plain.  Nothing
      is asked of an AND/OR below the root: the parser stops at it. */
  predicate Regular(e: Expr) {
    match e
    case Fn(_, _) => PlainFn(e)
    case Logic(_, es) => forall i | 0 <= i < |es| :: es[i].Fn? ==> PlainFn(es[i])
    case _ => true
  }

  // ----- structural translation

  /** A recognised function stands below the function e. */
  predicate Nested(e: Expr)
    decreases e
  {
    e.Fn? && exists i :: 0 <= i < |e.args| && e.args[i].Fn? && (!e.args[i].f.Unknown? || Nested(e.args[i]))
  }

  function Params(es: seq<Expr>): (ps: seq<Option<Expr>>)
    ensures |ps| == |es|
    ensures forall i | 0 <= i < |es| :: ps[i] == Some(es[i])
  {
    seq(|es|, i requires 0 <= i < |es| => Some(es[i]))
  }

  /** The match object of one function, if it has one. */
  function FnMatch(e: Expr): Result<Matcher>
    requires e.Fn?
  {
    FuncMatch(e.f, Params(e.args))
  }

  /** AND: operands without a match object are skipped; at an operand the parser
      cannot take in at all, what came before is kept. */
  function AndScan(es: seq<Expr>, kept: seq<Matcher>, st: Status): (Status, Matcher) {
    if es == [] then (st, AllOf(kept))
    else if !es[0].Fn? || Nested(es[0]) then (BeforeSupported, AllOf(kept))
    else
      match FnMatch(es[0])
      case Done(m) => AndScan(es[1..], kept + [m], st)
      case Fail(_) => AndScan(es[1..], kept, PartSupported)
  }

  /** OR: every operand must have a match object, or nothing is pushed; except
      that at a nested function the operands so far are pushed. */
  function OrScan(es: seq<Expr>, kept: seq<Matcher>): (Status, Matcher) {
    if es == [] then (Supported, AnyOf(kept))
    else if !es[0].Fn? then (Unsupported, All)
    else if Nested(es[0]) then (BeforeSupported, AnyOf(kept))
    else
      match FnMatch(es[0])
      case Done(m) => OrScan(es[1..], kept + [m])
      case Fail(_) => (Unsupported, All)
  }

  function Translate(e: Expr): (Status, Matcher) {
    match e
    case Logic(AndOp, es) => AndScan(es, [], Supported)
    case Logic(OrOp, es) => OrScan(es, [])
    case Fn(_, _) =>
      if Nested(e) || FnMatch(e).Fail? then (BeforeSupported, All) else (Supported, FnMatch(e).value)
    case _ => (Unsupported, All)
  }
}
