/** Kconfig expressions as tokens: the printer, the recursive-descent parser, and what one makes of the other. */
module KconfigParse {
  import opened KconfigExpr

  datatype Token = Sym(s: nat) | Relation(op: RelOp) | AndT | OrT | NotT | Open | Close | End

  datatype Parsed = Malformed | Ok(e: Expr, rest: seq<Token>)

  // ---------------------------------------------------------------------------------------------
  // The printer

  function Print(e: Expr): seq<Token>
    decreases e, 0
  {
    match e
    case Leaf(s) => [Sym(s)]
    case And(l, r) => Operand(l, l.Or?) + [AndT] + Operand(r, r.Or?)
    case Or(l, r) => Operand(l, l.And?) + [OrT] + Operand(r, r.And?)
    case Not(x) => if x.Leaf? then [NotT, Sym(x.sym)] else [NotT, Open] + Print(x) + [Close]
    case Rel(op, a, b) => [Sym(a), Relation(op), Sym(b)]
  }

  function Operand(e: Expr, parenthesize: bool): seq<Token>
    decreases e, 1
  {
    if parenthesize then [Open] + Print(e) + [Close] else Print(e)
  }

  // ---------------------------------------------------------------------------------------------
  // The parser

  /** The token ahead; the list ends with a sentinel. */
  function Ahead(ts: seq<Token>): Token
  {
    if ts == [] then End else ts[0]
  }

  function ParseExpr(ts: seq<Token>): (r: Parsed)
    ensures r.Ok? ==> |r.rest| < |ts|
    decreases |ts|, 2
  {
    var left := ParseAnd(ts);
    if left.Malformed? || Ahead(left.rest) != OrT then left
    else
      var right := ParseExpr(left.rest[1..]);
      if right.Malformed? then right else Ok(Or(left.e, right.e), right.rest)
  }

  function ParseAnd(ts: seq<Token>): (r: Parsed)
    ensures r.Ok? ==> |r.rest| < |ts|
    decreases |ts|, 1
  {
    var left := ParseFactor(ts);
    if left.Malformed? || Ahead(left.rest) != AndT then left
    else
      var right := ParseAnd(left.rest[1..]);
      if right.Malformed? then right else Ok(And(left.e, right.e), right.rest)
  }

  function ParseFactor(ts: seq<Token>): (r: Parsed)
    ensures r.Ok? ==> |r.rest| < |ts|
    decreases |ts|, 0
  {
    match Ahead(ts)
    case Sym(s) =>
      if !Ahead(ts[1..]).Relation? then Ok(Leaf(s), ts[1..])
      else if Ahead(ts[2..]).Sym? then Ok(Rel(ts[1].op, s, ts[2].s), ts[3..]) else Malformed
    case NotT =>
      var x := ParseFactor(ts[1..]);
      if x.Malformed? then x else Ok(Not(x.e), x.rest)
    case Open =>
      var x := ParseExpr(ts[1..]);
      if x.Ok? && Ahead(x.rest) == Close then Ok(x.e, x.rest[1..]) else Malformed
    case _ => Malformed
  }

  /** The parser's place in its tokens. */
  class Parser {
    const tokens: seq<Token>
    var i: nat

    constructor (tokens: seq<Token>)
      ensures this.tokens == tokens && i == 0
    {
      this.tokens, i := tokens, 0;
    }

    function Current(): Token
      requires i <= |tokens|
      reads this
    {
      Ahead(tokens[i..])
    }

    method CheckToken(t: Token) returns (matched: bool)
      requires i <= |tokens| && t != End
      modifies this
      ensures matched <==> old(Current()) == t
      ensures i <= |tokens| && i == if matched then old(i) + 1 else old(i)
    {
      matched := Current() == t;
      if matched {
        i := i + 1;
      }
    }

    /** A method consumes what the function of the same name says, or finds the input malformed. */
    twostate predicate Follows(r: Parsed, ok: bool, e: Expr)
      requires old(i) <= |tokens|
      reads this
    {
      && i <= |tokens| && (ok <==> r.Ok?)
      && (ok ==> old(i) < i && e == r.e && tokens[i..] == r.rest)
    }

    method Expression() returns (ok: bool, e: Expr)
      requires i <= |tokens|
      modifies this
      ensures Follows(ParseExpr(old(tokens[i..])), ok, e)
      decreases |tokens| - i, 2
    {
      ok, e := AndExpression();
      if ok {
        var more := CheckToken(OrT);
        if more {
          var right;
          assert tokens[i - 1..][1..] == tokens[i..];
          ok, right := Expression();
          e := Or(e, right);
        }
      }
    }

    method AndExpression() returns (ok: bool, e: Expr)
      requires i <= |tokens|
      modifies this
      ensures Follows(ParseAnd(old(tokens[i..])), ok, e)
      decreases |tokens| - i, 1
    {
      ok, e := Factor();
      if ok {
        var more := CheckToken(AndT);
        if more {
          var right;
          assert tokens[i - 1..][1..] == tokens[i..];
          ok, right := AndExpression();
          e := And(e, right);
        }
      }
    }

    method Factor() returns (ok: bool, e: Expr)
      requires i <= |tokens|
      modifies this
      ensures Follows(ParseFactor(old(tokens[i..])), ok, e)
      decreases |tokens| - i, 0
    {
      var token := Current();
      if token.End? {
        return false, Leaf(0);
      }
      ghost var all := tokens[i..];
      i := i + 1;
      assert all[1..] == tokens[i..];
      if token.Sym? {
        if !Current().Relation? {
          return true, Leaf(token.s);
        }
        var op := tokens[i].op;
        i := i + 1;
        assert all[2..] == tokens[i..];
        if !Current().Sym? {
          return false, Leaf(0);
        }
        e := Rel(op, token.s, tokens[i].s);
        i := i + 1;
        assert all[3..] == tokens[i..];
        return true, e;
      }
      if token == NotT {
        ok, e := Factor();
        e := Not(e);
        return;
      }
      if token == Open {
        ok, e := Expression();
        if ok {
          ghost var j := i;
          ok := CheckToken(Close);
          assert ok ==> tokens[j..][1..] == tokens[i..];
          return;
        }
      }
      return false, Leaf(0);
    }
  }

  // ---------------------------------------------------------------------------------------------
  // Round trip

  /** One chain of conjunctions after another. */
  function ThenAnd(x: Expr, y: Expr): Expr
  {
    if x.And? then And(x.left, ThenAnd(x.right, y)) else And(x, y)
  }

  function ThenOr(x: Expr, y: Expr): Expr
  {
    if x.Or? then Or(x.left, ThenOr(x.right, y)) else Or(x, y)
  }

  /** The same expression with its chains associated to the right. */
  function Righted(e: Expr): (r: Expr)
    ensures (r.And? <==> e.And?) && (r.Or? <==> e.Or?)
  {
    match e
    case Leaf(_) => e
    case And(l, r) => ThenAnd(Righted(l), Righted(r))
    case Or(l, r) => ThenOr(Righted(l), Righted(r))
    case Not(x) => Not(Righted(x))
    case Rel(_, _, _) => e
  }

  lemma {:induction false} ThenAndAssociates(x: Expr, y: Expr, z: Expr)
    ensures ThenAnd(ThenAnd(x, y), z) == ThenAnd(x, ThenAnd(y, z))
  {
    if x.And? { ThenAndAssociates(x.right, y, z); }
  }

  lemma {:induction false} ThenOrAssociates(x: Expr, y: Expr, z: Expr)
    ensures ThenOr(ThenOr(x, y), z) == ThenOr(x, ThenOr(y, z))
  {
    if x.Or? { ThenOrAssociates(x.right, y, z); }
  }

  lemma {:induction false} ThenAndValue(x: Expr, y: Expr, env: Env)
    ensures Value(ThenAnd(x, y), env) == Min(Value(x, env), Value(y, env))
  {
    if x.And? { ThenAndValue(x.right, y, env); }
  }

  lemma {:induction false} ThenOrValue(x: Expr, y: Expr, env: Env)
    ensures Value(ThenOr(x, y), env) == Max(Value(x, env), Value(y, env))
  {
    if x.Or? { ThenOrValue(x.right, y, env); }
  }

  lemma {:induction false} RightedValue(e: Expr, env: Env)
    ensures Value(Righted(e), env) == Value(e, env)
  {
    match e
    case Leaf(_) =>
    case And(l, r) => RightedValue(l, env); RightedValue(r, env); ThenAndValue(Righted(l), Righted(r), env);
    case Or(l, r) => RightedValue(l, env); RightedValue(r, env); ThenOrValue(Righted(l), Righted(r), env);
    case Not(x) => RightedValue(x, env);
    case Rel(_, _, _) =>
  }

  /** No chain has a chain of its own kind as its left operand. */
  predicate RightAssociated(e: Expr)
  {
    match e
    case Leaf(_) => true
    case And(l, r) => !l.And? && RightAssociated(l) && RightAssociated(r)
    case Or(l, r) => !l.Or? && RightAssociated(l) && RightAssociated(r)
    case Not(x) => RightAssociated(x)
    case Rel(_, _, _) => true
  }

  lemma {:induction false} ThenAndRights(x: Expr, y: Expr)
    requires RightAssociated(x) && RightAssociated(y)
    ensures RightAssociated(ThenAnd(x, y))
  {
    if x.And? { ThenAndRights(x.right, y); }
  }

  lemma {:induction false} ThenOrRights(x: Expr, y: Expr)
    requires RightAssociated(x) && RightAssociated(y)
    ensures RightAssociated(ThenOr(x, y))
  {
    if x.Or? { ThenOrRights(x.right, y); }
  }

  lemma {:induction false} RightedIs(e: Expr)
    ensures RightAssociated(Righted(e)) && (Righted(e) == e <==> RightAssociated(e))
  {
    match e
    case Leaf(_) =>
    case And(l, r) => RightedIs(l); RightedIs(r); ThenAndRights(Righted(l), Righted(r));
    case Or(l, r) => RightedIs(l); RightedIs(r); ThenOrRights(Righted(l), Righted(r));
    case Not(x) => RightedIs(x);
    case Rel(_, _, _) =>
  }

  lemma FactorParenthesized(e: Expr, rest: seq<Token>)
    requires ParseExpr(Print(e) + ([Close] + rest)) == Ok(Righted(e), [Close] + rest)
    ensures ParseFactor([Open] + Print(e) + [Close] + rest) == Ok(Righted(e), rest)
  {
    hide ParseExpr, Print, Righted;
    var ts := [Open] + Print(e) + [Close] + rest;
    assert ts[1..] == Print(e) + ([Close] + rest);
    assert ([Close] + rest)[1..] == rest;
  }

  /** Something that is not a chain, or one in parentheses, is a factor. */
  lemma {:induction false} FactorBack(e: Expr, parenthesize: bool, rest: seq<Token>)
    requires !Ahead(rest).Relation? && (e.And? || e.Or? ==> parenthesize)
    ensures ParseFactor(Operand(e, parenthesize) + rest) == Ok(Righted(e), rest)
    decreases e, if parenthesize then 4 else 0
  {
    if parenthesize {
      ExprBack(e, [Close] + rest);
      FactorParenthesized(e, rest);
    } else {
      match e
      case Leaf(s) => assert (Print(e) + rest)[1..] == rest;
      case Not(x) =>
        var ts := Print(e) + rest;
        if x.Leaf? {
          assert ts[1..] == Print(x) + rest;
          FactorBack(x, false, rest);
        } else {
          assert ts[1..] == [Open] + Print(x) + [Close] + rest;
          ExprBack(x, [Close] + rest);
          FactorParenthesized(x, rest);
        }
      case Rel(op, a, b) =>
        var ts := Print(e) + rest;
        assert ts[1..][0] == Relation(op) && ts[2..][0] == Sym(b) && ts[3..] == rest;
    }
  }

  lemma AndStep(ts: seq<Token>, x: Expr, more: seq<Token>)
    requires ParseFactor(ts) == Ok(x, [AndT] + more) && ParseAnd(more).Ok?
    ensures ParseAnd(ts) == Ok(And(x, ParseAnd(more).e), ParseAnd(more).rest)
  {
    assert ([AndT] + more)[1..] == more;
  }

  lemma AndLast(ts: seq<Token>, x: Expr, rest: seq<Token>)
    requires ParseFactor(ts) == Ok(x, rest) && Ahead(rest) != AndT
    ensures ParseAnd(ts) == Ok(x, rest)
  {
  }

  lemma OrStep(ts: seq<Token>, x: Expr, more: seq<Token>)
    requires ParseAnd(ts) == Ok(x, [OrT] + more) && ParseExpr(more).Ok?
    ensures ParseExpr(ts) == Ok(Or(x, ParseExpr(more).e), ParseExpr(more).rest)
  {
    assert ([OrT] + more)[1..] == more;
  }

  lemma OrLast(ts: seq<Token>, x: Expr, rest: seq<Token>)
    requires ParseAnd(ts) == Ok(x, rest) && Ahead(rest) != OrT
    ensures ParseExpr(ts) == Ok(x, rest)
  {
  }

  lemma PrintPair(e: Expr, rest: seq<Token>)
    ensures e.And? ==> Print(e) + rest == Operand(e.left, e.left.Or?) + ([AndT] + (Operand(e.right, e.right.Or?) + rest))
    ensures e.Or? ==> Print(e) + rest == Operand(e.left, e.left.And?) + ([OrT] + (Operand(e.right, e.right.And?) + rest))
    ensures Operand(e, false) == Print(e)
  {
  }

  /** A chain of conjunctions with more of it to come. */
  lemma {:induction false} AndChain(e: Expr, more: seq<Token>)
    requires ParseAnd(more).Ok?
    ensures ParseAnd(Operand(e, e.Or?) + ([AndT] + more)) == Ok(ThenAnd(Righted(e), ParseAnd(more).e), ParseAnd(more).rest)
    decreases e, 6
  {
    hide ParseFactor, ParseAnd, ParseExpr, Print, Operand;
    var y := ParseAnd(more);
    if e.And? {
      var tail := Operand(e.right, e.right.Or?) + ([AndT] + more);
      AndChain(e.right, more);
      AndChain(e.left, tail);
      PrintPair(e, [AndT] + more);
      ThenAndAssociates(Righted(e.left), Righted(e.right), y.e);
    } else {
      FactorBack(e, e.Or?, [AndT] + more);
      AndStep(Operand(e, e.Or?) + ([AndT] + more), Righted(e), more);
    }
  }

  lemma {:induction false} AndBack(e: Expr, parenthesize: bool, rest: seq<Token>)
    requires !Ahead(rest).Relation? && !Ahead(rest).AndT? && (e.Or? ==> parenthesize)
    ensures ParseAnd(Operand(e, parenthesize) + rest) == Ok(Righted(e), rest)
    decreases e, if parenthesize then 5 else 1
  {
    hide ParseFactor, ParseAnd, ParseExpr, Print, Operand;
    if e.And? && !parenthesize {
      AndBack(e.right, e.right.Or?, rest);
      AndChain(e.left, Operand(e.right, e.right.Or?) + rest);
      PrintPair(e, rest);
    } else {
      FactorBack(e, parenthesize, rest);
      AndLast(Operand(e, parenthesize) + rest, Righted(e), rest);
    }
  }

  /** ... and of disjunctions. */
  lemma {:induction false} OrChain(e: Expr, more: seq<Token>)
    requires ParseExpr(more).Ok?
    ensures ParseExpr(Operand(e, e.And?) + ([OrT] + more)) == Ok(ThenOr(Righted(e), ParseExpr(more).e), ParseExpr(more).rest)
    decreases e, 6
  {
    hide ParseFactor, ParseAnd, ParseExpr, Print, Operand;
    var y := ParseExpr(more);
    if e.Or? {
      var tail := Operand(e.right, e.right.And?) + ([OrT] + more);
      OrChain(e.right, more);
      OrChain(e.left, tail);
      PrintPair(e, [OrT] + more);
      ThenOrAssociates(Righted(e.left), Righted(e.right), y.e);
    } else {
      AndBack(e, e.And?, [OrT] + more);
      OrStep(Operand(e, e.And?) + ([OrT] + more), Righted(e), more);
    }
  }

  lemma {:induction false} OperandBack(e: Expr, parenthesize: bool, rest: seq<Token>)
    requires !Ahead(rest).Relation? && !Ahead(rest).AndT? && !Ahead(rest).OrT?
    ensures ParseExpr(Operand(e, parenthesize) + rest) == Ok(Righted(e), rest)
    decreases e, if parenthesize then 6 else 3, 0
  {
    hide ParseFactor, ParseAnd, ParseExpr, Print, Operand;
    if e.Or? && !parenthesize {
      OperandBack(e.right, e.right.And?, rest);
      OrChain(e.left, Operand(e.right, e.right.And?) + rest);
      PrintPair(e, rest);
    } else {
      AndBack(e, parenthesize, rest);
      OrLast(Operand(e, parenthesize) + rest, Righted(e), rest);
    }
  }

  lemma {:induction false} ExprBack(e: Expr, rest: seq<Token>)
    requires !Ahead(rest).Relation? && !Ahead(rest).AndT? && !Ahead(rest).OrT?
    ensures ParseExpr(Print(e) + rest) == Ok(Righted(e), rest)
    decreases e, 3, 1
  {
    OperandBack(e, false, rest);
    PrintPair(e, rest);
  }

  /**
   * Parsing what was printed consumes every token, gives the expression with its chains to the right, which has the
   * same value against anything, and is the expression itself exactly if that was its form already.
   */
  lemma RoundTrip(e: Expr, env: Env)
    ensures ParseExpr(Print(e)) == Ok(Righted(e), [])
    ensures Value(Righted(e), env) == Value(e, env)
    ensures ParseExpr(Print(e)) == Ok(e, []) <==> RightAssociated(e)
  {
    hide ParseExpr, Print;
    ExprBack(e, []);
    assert Print(e) + [] == Print(e);
    RightedValue(e, env);
    RightedIs(e);
  }

  /** The parser on what the printer prints. */
  method Reparse(e: Expr, ghost env: Env) returns (r: Expr)
    ensures r == Righted(e) && Value(r, env) == Value(e, env)
  {
    hide ParseExpr, Print;
    RoundTrip(e, env);
    var tokens := Print(e);
    var parser := new Parser(tokens);
    assert tokens[0..] == tokens;
    var ok;
    ok, r := parser.Expression();
  }
}
