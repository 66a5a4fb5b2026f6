/** Kconfig expressions and their tristate value. */
module KconfigExpr {

  /** n, m and y count as 0, 1 and 2. */
  type Tri = t: int | 0 <= t <= 2

  datatype RelOp = Equal | Unequal | Less | LessEqual | Greater | GreaterEqual

  /** A comparison is of two symbols, never of expressions. */
  datatype Expr =
    | Leaf(sym: nat)
    | And(left: Expr, right: Expr)
    | Or(left: Expr, right: Expr)
    | Not(arg: Expr)
    | Rel(op: RelOp, a: nat, b: nat)

  /** What an expression is evaluated against: the value of each symbol and the outcome of each comparison. */
  datatype Env = Env(tri: nat -> Tri, rel: (RelOp, nat, nat) -> bool)

  function Min(a: Tri, b: Tri): Tri { if a <= b then a else b }

  function Max(a: Tri, b: Tri): Tri { if a <= b then b else a }

  /** The evaluator, with its two short cuts. */
  function Value(e: Expr, env: Env): Tri
  {
    match e
    case Leaf(s) => env.tri(s)
    case And(l, r) =>
      var v := Value(l, env);
      if v == 0 then 0 else Min(v, Value(r, env))
    case Or(l, r) =>
      var v := Value(l, env);
      if v == 2 then 2 else Max(v, Value(r, env))
    case Not(x) => 2 - Value(x, env)
    case Rel(op, a, b) => if env.rel(op, a, b) then 2 else 0
  }

  /** Every symbol an expression mentions. */
  function Leaves(e: Expr): set<nat>
  {
    match e
    case Leaf(s) => {s}
    case And(l, r) => Leaves(l) + Leaves(r)
    case Or(l, r) => Leaves(l) + Leaves(r)
    case Not(x) => Leaves(x)
    case Rel(_, a, b) => {a, b}
  }
}
