/** Finalizing the menu tree: dependencies go down to the children, implicit submenus form, ifs go away. */
module KconfigMenu {
  import opened KconfigExpr
  import opened Wrappers

  // The constant symbols
  const N: nat := 0
  const M: nat := 1
  const Y: nat := 2

  datatype Kind = Symbol(sym: nat) | Choice | Menu | Comment | If

  /** conds are the conditions of defaults, ranges, selects and implies, in order. */
  datatype Node = Node(id: nat, kind: Kind, prompt: Option<Expr>, dep: Expr, visibility: Expr, conds: seq<Expr>, children: seq<Node>)

  function Size(nodes: seq<Node>): nat
    decreases nodes
  {
    if nodes == [] then 0 else NodeSize(nodes[0]) + Size(nodes[1..])
  }

  function NodeSize(n: Node): (s: nat)
    ensures s == 1 + Size(n.children)
    decreases n
  {
    1 + Size(n.children)
  }

  lemma {:induction false} SizeSplit(a: seq<Node>, b: seq<Node>)
    ensures Size(a + b) == Size(a) + Size(b)
  {
    if a == [] {
      assert a + b == b;
    } else {
      assert (a + b)[1..] == a[1..] + b;
      SizeSplit(a[1..], b);
    }
  }

  lemma SizeTail(nodes: seq<Node>, k: nat)
    requires k <= |nodes|
    ensures Size(nodes[k..]) <= Size(nodes)
  {
    hide Size;
    SizeSplit(nodes[..k], nodes[k..]);
    assert nodes[..k] + nodes[k..] == nodes;
  }

  // ---------------------------------------------------------------------------------------------
  // Expressions

  function MakeAnd(a: Expr, b: Expr): Expr
  {
    if a == Leaf(Y) then b
    else if b == Leaf(Y) then a
    else if a == Leaf(N) || b == Leaf(N) then Leaf(N)
    else And(a, b)
  }

  function MakeOr(a: Expr, b: Expr): Expr
  {
    if a == Leaf(N) then b
    else if b == Leaf(N) then a
    else if a == Leaf(Y) || b == Leaf(Y) then Leaf(Y)
    else Or(a, b)
  }

  predicate Constants(env: Env)
  {
    env.tri(N) == 0 && env.tri(M) == 1 && env.tri(Y) == 2
  }

  lemma PairValue(a: Expr, b: Expr, env: Env)
    ensures Value(And(a, b), env) == Min(Value(a, env), Value(b, env))
    ensures Value(Or(a, b), env) == Max(Value(a, env), Value(b, env))
  {
  }

  lemma ConstantValues(env: Env)
    requires Constants(env)
    ensures Value(Leaf(Y), env) == 2 && Value(Leaf(N), env) == 0
  {
  }

  /** The simplifications change no value. */
  lemma MakeAndValue(a: Expr, b: Expr, env: Env)
    requires Constants(env)
    ensures Value(MakeAnd(a, b), env) == Min(Value(a, env), Value(b, env))
  {
    hide Value;
    PairValue(a, b, env);
    ConstantValues(env);
  }

  lemma MakeOrValue(a: Expr, b: Expr, env: Env)
    requires Constants(env)
    ensures Value(MakeOr(a, b), env) == Max(Value(a, env), Value(b, env))
  {
    hide Value;
    PairValue(a, b, env);
    ConstantValues(env);
  }

  /** Whether a condition ties an item to a symbol so that it goes in the symbol's submenu. */
  predicate DependsOn(e: Expr, s: nat)
  {
    match e
    case Leaf(x) => x == s
    case Rel(op, a, b) =>
      && (op == Equal || op == Unequal)
      && (a == s || b == s)
      && var right := if b == s then a else b;
         || (op == Equal && right == M) || right == Y || (op == Unequal && right == N)
    case And(l, r) => DependsOn(l, s) || DependsOn(r, s)
    case _ => false
  }

  /** The parts of a conjunction, however it is nested. */
  function Conjuncts(e: Expr): set<Expr>
  {
    if e.And? then Conjuncts(e.left) + Conjuncts(e.right) else {e}
  }

  /** The symbol itself, or one of these comparisons with it. */
  predicate Ties(c: Expr, s: nat)
  {
    c in {Leaf(s), Rel(Equal, s, M), Rel(Equal, M, s), Rel(Equal, s, Y), Rel(Equal, Y, s),
          Rel(Unequal, s, N), Rel(Unequal, N, s), Rel(Unequal, s, Y), Rel(Unequal, Y, s)}
  }

  /** What ties an item to a symbol is one of its conjuncts. */
  lemma {:induction false} DependsExactly(e: Expr, s: nat)
    ensures DependsOn(e, s) <==> exists c | c in Conjuncts(e) :: Ties(c, s)
  {
    if e.And? {
      DependsExactly(e.left, s);
      DependsExactly(e.right, s);
    } else {
      assert e in Conjuncts(e);
    }
  }

  /** A symbol against n, m and y, either way round: equal exactly where this says so. */
  predicate ComparesBy(env: Env, s: nat, same: Tri -> bool)
  {
    forall b | b in [N, M, Y] ::
      && (env.rel(Equal, s, b) <==> same(env.tri(b))) && (env.rel(Equal, b, s) <==> same(env.tri(b)))
      && (env.rel(Unequal, s, b) <==> !same(env.tri(b))) && (env.rel(Unequal, b, s) <==> !same(env.tri(b)))
  }

  /** A bool or tristate symbol is compared with n, m and y by its tristate value. */
  predicate ComparesTristates(env: Env, s: nat)
  {
    ComparesBy(env, s, t => env.tri(s) == t)
  }

  /** An int, hex or string symbol, by its number or its text: that of one of them, as 0 to 2 or n to y, or of none. */
  predicate ComparesOther(env: Env, s: nat, like: Option<Tri>)
  {
    ComparesBy(env, s, t => like == Some(t))
  }

  /** The same without comparing the symbol for inequality with y. */
  predicate StrictlyDependsOn(e: Expr, s: nat)
  {
    match e
    case Rel(op, a, b) => DependsOn(e, s) && (op == Equal || (if b == s then a else b) != Y)
    case And(l, r) => StrictlyDependsOn(l, s) || StrictlyDependsOn(r, s)
    case _ => DependsOn(e, s)
  }

  /** What goes in the submenu of a bool or tristate symbol is out of reach while the symbol is n ... */
  lemma {:induction false} SubmenuNeedsSymbol(e: Expr, s: nat, env: Env)
    requires Constants(env) && ComparesTristates(env, s) && env.tri(s) == 0 && StrictlyDependsOn(e, s)
    ensures Value(e, env) == 0 && DependsOn(e, s)
  {
    if e.And? {
      if StrictlyDependsOn(e.left, s) { SubmenuNeedsSymbol(e.left, s, env); } else { SubmenuNeedsSymbol(e.right, s, env); }
    }
  }

  /** ... but for a comparison, exactly if it is not the symbol's inequality with y. */
  lemma ComparisonNeedsSymbol(op: RelOp, a: nat, b: nat, s: nat, env: Env)
    requires Constants(env) && ComparesTristates(env, s) && env.tri(s) == 0 && DependsOn(Rel(op, a, b), s)
    ensures Value(Rel(op, a, b), env) == 0 <==> StrictlyDependsOn(Rel(op, a, b), s)
  {
  }

  /** The tristate value of other symbols is n whatever they hold: whether a comparison is n depends on what that is. */
  lemma OtherTypesEscape(op: RelOp, a: nat, b: nat, s: nat, like: Option<Tri>, env: Env)
    requires Constants(env) && ComparesOther(env, s, like) && env.tri(s) == 0 && DependsOn(Rel(op, a, b), s)
    ensures var right := if b == s then a else b;
            Value(Rel(op, a, b), env) == 0 <==> ((op == Equal) == (like != Some(env.tri(right))))
  {
  }

  /** Such as an int of 5, which gets what needs it to differ from n into its submenu and never hides it. */
  lemma NumberNeverHides(s: nat, env: Env)
    requires s != N && Constants(env) && ComparesOther(env, s, None) && env.tri(s) == 0
    ensures StrictlyDependsOn(Rel(Unequal, s, N), s) && Value(Rel(Unequal, s, N), env) == 2
  {
    OtherTypesEscape(Unequal, s, N, s, None, env);
  }

  predicate AutoDep(n: Node, next: Node)
  {
    n.kind.Symbol? && DependsOn(if next.prompt.Some? then next.prompt.value else next.dep, n.kind.sym)
  }

  // ---------------------------------------------------------------------------------------------
  // Finalization

  function MakeAnds(es: seq<Expr>, e: Expr): (r: seq<Expr>)
    ensures |r| == |es| && forall i | 0 <= i < |r| :: r[i] == MakeAnd(es[i], e)
  {
    seq(|es|, i requires 0 <= i < |es| => MakeAnd(es[i], e))
  }

  predicate HasConds(k: Kind)
  {
    k.Symbol? || k.Choice?
  }

  /** One child of a node with this dependency, below these visible-ifs. */
  function Inherit(n: Node, base: Expr, vis: Expr): (r: Node)
    ensures r.children == n.children
  {
    var dep := MakeAnd(n.dep, base);
    if HasConds(n.kind) then
      n.(dep := dep,
         prompt := if n.prompt.Some? then Some(MakeAnd(n.prompt.value, MakeAnd(vis, dep))) else None,
         conds := if dep == Leaf(Y) then n.conds else MakeAnds(n.conds, dep))
    else
      n.(dep := dep, prompt := if n.prompt.Some? then Some(MakeAnd(n.prompt.value, dep)) else None)
  }

  function Propagate(nodes: seq<Node>, base: Expr, vis: Expr): (r: seq<Node>)
    ensures |r| == |nodes| && Size(r) == Size(nodes)
  {
    if nodes == [] then [] else [Inherit(nodes[0], base, vis)] + Propagate(nodes[1..], base, vis)
  }

  /** Children of a node without a prompt go after it instead, but for those of a choice. */
  function Flatten(nodes: seq<Node>): seq<Node>
    decreases Size(nodes)
  {
    if nodes == [] then []
    else
      var n := nodes[0];
      if n.children != [] && n.prompt.None? && !n.kind.Choice? then
        SizeSplit(n.children, nodes[1..]);
        [n.(children := [])] + Flatten(n.children + nodes[1..])
      else [n] + Flatten(nodes[1..])
  }

  function RemoveIfs(nodes: seq<Node>): seq<Node>
  {
    if nodes == [] then [] else (if nodes[0].kind.If? then [] else [nodes[0]]) + RemoveIfs(nodes[1..])
  }

  function Tidy(nodes: seq<Node>): seq<Node>
  {
    RemoveIfs(Flatten(nodes))
  }

  /** A finalized node, with how many of the nodes after it went into its submenu. */
  datatype Final = Final(node: Node, taken: nat)

  datatype Submenu = Submenu(nodes: seq<Node>, taken: nat)

  function Finalize(n: Node, rest: seq<Node>, vis: Expr): (f: Final)
    ensures f.taken <= |rest|
    decreases NodeSize(n) + Size(rest), 1
  {
    if n.kind.Symbol? then
      var sub := Absorb(n, rest, vis);
      Final(n.(children := Tidy(sub.nodes)), sub.taken)
    else if n.children == [] then Final(n, 0)
    else
      var below := if n.kind.Menu? then MakeAnd(vis, n.visibility) else vis;
      Final(n.(children := Tidy(FinalizeAll(Propagate(n.children, n.dep, below), below))), 0)
  }

  /** The nodes right after a symbol that depend on it, finalized. */
  function Absorb(n: Node, rest: seq<Node>, vis: Expr): (s: Submenu)
    ensures s.taken <= |rest|
    decreases NodeSize(n) + Size(rest), 0
  {
    if rest == [] || !AutoDep(n, rest[0]) then Submenu([], 0)
    else
      var f := Finalize(rest[0], rest[1..], vis);
      SizeTail(rest[1..], f.taken);
      var more := Absorb(n, rest[1..][f.taken..], vis);
      Submenu([f.node] + more.nodes, 1 + f.taken + more.taken)
  }

  function FinalizeAll(nodes: seq<Node>, vis: Expr): seq<Node>
    decreases Size(nodes), 2
  {
    if nodes == [] then []
    else
      var f := Finalize(nodes[0], nodes[1..], vis);
      SizeTail(nodes[1..], f.taken);
      [f.node] + FinalizeAll(nodes[1..][f.taken..], vis)
  }

  // ---------------------------------------------------------------------------------------------
  // What comes out, and what should

  /** What a node amounts to against an environment. */
  datatype Val = Val(id: nat, kind: Kind, prompt: Option<Tri>, dep: Tri, conds: seq<Tri>)

  function Values(es: seq<Expr>, env: Env): (r: seq<Tri>)
    ensures |r| == |es| && forall i | 0 <= i < |r| :: r[i] == Value(es[i], env)
  {
    seq(|es|, i requires 0 <= i < |es| => Value(es[i], env))
  }

  function Mins(ts: seq<Tri>, t: Tri): (r: seq<Tri>)
    ensures |r| == |ts| && forall i | 0 <= i < |r| :: r[i] == Min(ts[i], t)
  {
    seq(|ts|, i requires 0 <= i < |ts| => Min(ts[i], t))
  }

  function Emit(n: Node, env: Env): Val
  {
    Val(n.id, n.kind, if n.prompt.Some? then Some(Value(n.prompt.value, env)) else None, Value(n.dep, env), Values(n.conds, env))
  }

  /** The nodes of a tree but the ifs, each before those below it. */
  function Vals(nodes: seq<Node>, env: Env): seq<Val>
    decreases nodes
  {
    if nodes == [] then []
    else
      var n := nodes[0];
      (if n.kind.If? then [] else [Emit(n, env)]) + Vals(n.children, env) + Vals(nodes[1..], env)
  }

  /** A node's conditions under d, the least of all dependencies around it, and v, the least visible-if around it. */
  function Expected(n: Node, d: Tri, v: Tri, env: Env): Val
  {
    var own := Min(Value(n.dep, env), d);
    var item := n.kind.Symbol? || n.kind.Choice?;
    Val(n.id, n.kind,
        if n.prompt.None? then None else Some(Min(Value(n.prompt.value, env), if item then Min(v, own) else own)),
        own,
        if item then Mins(Values(n.conds, env), own) else Values(n.conds, env))
  }

  function Below(n: Node, v: Tri, env: Env): Tri
  {
    if n.kind.Menu? then Min(v, Value(n.visibility, env)) else v
  }

  /** The reference: one walk down the tree as it was parsed. */
  function Meant(nodes: seq<Node>, d: Tri, v: Tri, env: Env): seq<Val>
    decreases nodes
  {
    if nodes == [] then []
    else
      var n := nodes[0];
      (if n.kind.If? then [] else [Expected(n, d, v, env)])
      + Meant(n.children, Min(Value(n.dep, env), d), Below(n, v, env), env)
      + Meant(nodes[1..], d, v, env)
  }

  /** The same for nodes that have inherited already, with nothing done below them. */
  function Pending(nodes: seq<Node>, v: Tri, env: Env): seq<Val>
  {
    if nodes == [] then []
    else
      var n := nodes[0];
      (if n.kind.If? then [] else [Emit(n, env)])
      + Meant(n.children, Value(n.dep, env), Below(n, v, env), env)
      + Pending(nodes[1..], v, env)
  }

  /** As the parser leaves it: an if has no prompt, a symbol nothing below it. */
  predicate Parsed(nodes: seq<Node>)
    decreases nodes
  {
    nodes == [] ||
    (var n := nodes[0];
     && (n.kind.If? ==> n.prompt.None?) && (n.kind.Symbol? ==> n.children == [])
     && Parsed(n.children) && Parsed(nodes[1..]))
  }

  /** No if has a prompt, at any depth. */
  predicate Plain(nodes: seq<Node>)
    decreases nodes
  {
    nodes == [] || ((nodes[0].kind.If? ==> nodes[0].prompt.None?) && Plain(nodes[0].children) && Plain(nodes[1..]))
  }

  // ---------------------------------------------------------------------------------------------
  // Lists

  lemma {:induction false} ValsSplit(a: seq<Node>, b: seq<Node>, env: Env)
    ensures Vals(a + b, env) == Vals(a, env) + Vals(b, env)
  {
    if a == [] {
      assert a + b == b;
    } else {
      assert (a + b)[1..] == a[1..] + b;
      ValsSplit(a[1..], b, env);
    }
  }

  lemma {:induction false} PendingSplit(a: seq<Node>, b: seq<Node>, v: Tri, env: Env)
    ensures Pending(a + b, v, env) == Pending(a, v, env) + Pending(b, v, env)
  {
    if a == [] {
      assert a + b == b;
    } else {
      assert (a + b)[1..] == a[1..] + b;
      PendingSplit(a[1..], b, v, env);
    }
  }

  lemma {:induction false} PlainSplit(a: seq<Node>, b: seq<Node>)
    ensures Plain(a + b) <==> Plain(a) && Plain(b)
  {
    if a == [] {
      assert a + b == b;
    } else {
      assert (a + b)[1..] == a[1..] + b;
      PlainSplit(a[1..], b);
    }
  }

  lemma {:induction false} ParsedSplit(a: seq<Node>, b: seq<Node>)
    ensures Parsed(a + b) <==> Parsed(a) && Parsed(b)
  {
    if a == [] {
      assert a + b == b;
    } else {
      assert (a + b)[1..] == a[1..] + b;
      ParsedSplit(a[1..], b);
    }
  }

  lemma ParsedTail(nodes: seq<Node>, k: nat)
    requires Parsed(nodes) && k <= |nodes|
    ensures Parsed(nodes[k..])
  {
    hide Parsed;
    ParsedSplit(nodes[..k], nodes[k..]);
    assert nodes[..k] + nodes[k..] == nodes;
  }

  // ---------------------------------------------------------------------------------------------
  // Each part of it

  lemma InheritExpected(n: Node, base: Expr, vis: Expr, env: Env)
    requires Constants(env)
    ensures Emit(Inherit(n, base, vis), env) == Expected(n, Value(base, env), Value(vis, env), env)
    ensures Value(Inherit(n, base, vis).dep, env) == Min(Value(n.dep, env), Value(base, env))
  {
    var dep := MakeAnd(n.dep, base);
    MakeAndValue(n.dep, base, env);
    MakeAndValue(vis, dep, env);
    if n.prompt.Some? {
      MakeAndValue(n.prompt.value, MakeAnd(vis, dep), env);
      MakeAndValue(n.prompt.value, dep, env);
    }
    assert Value(Leaf(Y), env) == 2;
    forall i | 0 <= i < |n.conds| ensures Value(MakeAnd(n.conds[i], dep), env) == Min(Value(n.conds[i], env), Value(dep, env)) {
      MakeAndValue(n.conds[i], dep, env);
    }
    hide Value, MakeAnd;
    assert HasConds(n.kind) ==> Values(Inherit(n, base, vis).conds, env) == Mins(Values(n.conds, env), Value(dep, env));
  }

  lemma OneMeant(n: Node, rest: seq<Node>, d: Tri, v: Tri, env: Env)
    ensures Meant([n] + rest, d, v, env) ==
              (if n.kind.If? then [] else [Expected(n, d, v, env)])
              + Meant(n.children, Min(Value(n.dep, env), d), Below(n, v, env), env)
              + Meant(rest, d, v, env)
  {
    assert ([n] + rest)[1..] == rest;
  }

  lemma PropagateHead(n: Node, rest: seq<Node>, base: Expr, vis: Expr)
    ensures Propagate([n] + rest, base, vis) == [Inherit(n, base, vis)] + Propagate(rest, base, vis)
    ensures Parsed([n]) ==> Parsed([Inherit(n, base, vis)])
  {
    assert ([n] + rest)[1..] == rest;
  }

  lemma {:induction false} PropagateMeant(nodes: seq<Node>, base: Expr, vis: Expr, env: Env)
    requires Constants(env) && Parsed(nodes)
    ensures Pending(Propagate(nodes, base, vis), Value(vis, env), env) == Meant(nodes, Value(base, env), Value(vis, env), env)
    ensures Parsed(Propagate(nodes, base, vis))
  {
    if nodes != [] {
      var n, rest := nodes[0], nodes[1..];
      var i := Inherit(n, base, vis);
      var v := Value(vis, env);
      assert i.kind == n.kind && i.children == n.children && Below(i, v, env) == Below(n, v, env);
      hide Emit, Expected, Value, Pending, Meant, Propagate, Inherit, Parsed, Below;
      assert nodes == [n] + rest;
      ParsedSplit([n], rest);
      InheritExpected(n, base, vis, env);
      PropagateHead(n, rest, base, vis);
      PropagateMeant(rest, base, vis, env);
      PendingSplit([i], Propagate(rest, base, vis), v, env);
      ParsedSplit([i], Propagate(rest, base, vis));
      OnePending(i, v, env);
      OneMeant(n, rest, Value(base, env), v, env);
    }
  }

  lemma OneVal(n: Node, env: Env)
    ensures Vals([n], env) == (if n.kind.If? then [] else [Emit(n, env)]) + Vals(n.children, env)
    ensures Plain([n]) <==> (n.kind.If? ==> n.prompt.None?) && Plain(n.children)
  {
    assert [n][1..] == [];
  }

  lemma HeadVals(n: Node, rest: seq<Node>, env: Env)
    ensures Vals([n] + rest, env) == Vals([n], env) + Vals(rest, env)
    ensures Plain([n] + rest) <==> Plain([n]) && Plain(rest)
  {
    ValsSplit([n], rest, env);
    PlainSplit([n], rest);
  }

  lemma Childless(n: Node, env: Env)
    ensures Vals([n], env) == Vals([n.(children := [])], env) + Vals(n.children, env)
    ensures Plain([n]) ==> Plain([n.(children := [])]) && Plain(n.children)
  {
    OneVal(n, env);
    OneVal(n.(children := []), env);
    assert Vals([], env) == [] && Plain([]);
    hide Vals, Plain;
  }

  lemma Regroup(a: seq<Val>, b: seq<Val>, c: seq<Val>)
    ensures (a + b) + c == a + (b + c)
  {
  }

  /** Flattening keeps the nodes in order, and leaves no if with children. */
  lemma {:induction false} FlattenVals(nodes: seq<Node>, env: Env)
    requires Plain(nodes)
    ensures Vals(Flatten(nodes), env) == Vals(nodes, env) && Plain(Flatten(nodes))
    ensures forall n | n in Flatten(nodes) :: n.kind.If? ==> n.children == []
    decreases Size(nodes)
  {
    hide Vals, Plain;
    if nodes == [] {
      NothingListed(0, env);
    } else {
      var n, rest := nodes[0], nodes[1..];
      OneVal(n, env);
      SizeSplit(n.children, rest);
      assert nodes == [n] + rest;
      HeadVals(n, rest, env);
      if n.children != [] && n.prompt.None? && !n.kind.Choice? {
        PlainSplit(n.children, rest);
        FlattenVals(n.children + rest, env);
        ValsSplit(n.children, rest, env);
        Childless(n, env);
        HeadVals(n.(children := []), Flatten(n.children + rest), env);
        Regroup(Vals([n.(children := [])], env), Vals(n.children, env), Vals(rest, env));
      } else {
        FlattenVals(rest, env);
        HeadVals(n, Flatten(rest), env);
      }
    }
  }

  lemma {:induction false} RemoveIfsVals(nodes: seq<Node>, env: Env)
    requires Plain(nodes) && forall n | n in nodes :: n.kind.If? ==> n.children == []
    ensures Vals(RemoveIfs(nodes), env) == Vals(nodes, env) && Plain(RemoveIfs(nodes))
  {
    if nodes != [] {
      var n, rest := nodes[0], nodes[1..];
      OneVal(n, env);
      assert Vals([], env) == [];
      hide Vals, Plain;
      assert nodes == [n] + rest;
      assert n.kind.If? ==> n.children == [];
      HeadVals(n, rest, env);
      RemoveIfsVals(rest, env);
      HeadVals(n, RemoveIfs(rest), env);
      assert [] + RemoveIfs(rest) == RemoveIfs(rest);
    }
  }

  lemma TidyVals(nodes: seq<Node>, env: Env)
    requires Plain(nodes)
    ensures Vals(Tidy(nodes), env) == Vals(nodes, env) && Plain(Tidy(nodes))
  {
    hide Vals, Flatten, RemoveIfs, Plain;
    FlattenVals(nodes, env);
    RemoveIfsVals(Flatten(nodes), env);
  }

  lemma OnePending(n: Node, v: Tri, env: Env)
    ensures Pending([n], v, env) ==
              (if n.kind.If? then [] else [Emit(n, env)]) + Meant(n.children, Value(n.dep, env), Below(n, v, env), env)
  {
    assert [n][1..] == [];
  }

  // ---------------------------------------------------------------------------------------------
  // All of it

  /** A node and what is put below it. */
  lemma WithChildren(n: Node, children: seq<Node>, below: seq<Val>, env: Env)
    requires Vals(children, env) == below && Plain(children) && (n.kind.If? ==> n.prompt.None?)
    ensures Vals([n.(children := children)], env) == (if n.kind.If? then [] else [Emit(n, env)]) + below
    ensures Plain([n.(children := children)])
  {
    OneVal(n.(children := children), env);
    hide Vals, Plain;
  }

  lemma ParsedOne(n: Node)
    requires Parsed([n])
    ensures (n.kind.If? ==> n.prompt.None?) && (n.kind.Symbol? ==> n.children == []) && Parsed(n.children)
  {
  }

  lemma {:induction false} FinalizeVals(n: Node, rest: seq<Node>, vis: Expr, env: Env)
    requires Constants(env) && Parsed([n]) && Parsed(rest)
    ensures var f := Finalize(n, rest, vis);
            Plain([f.node]) && Vals([f.node], env) == Pending([n] + rest[..f.taken], Value(vis, env), env)
    decreases NodeSize(n) + Size(rest), 1
  {
    ParsedOne(n);
    OnePending(n, Value(vis, env), env);
    var v := Value(vis, env);
    if n.kind.Symbol? {
      var sub := Absorb(n, rest, vis);
      AbsorbVals(n, rest, vis, env);
      assert Meant([], Value(n.dep, env), Below(n, v, env), env) == [];
      hide Vals, Plain, Pending, Meant, Absorb, Tidy;
      TidyVals(sub.nodes, env);
      WithChildren(n, Tidy(sub.nodes), Vals(sub.nodes, env), env);
      PendingSplit([n], rest[..sub.taken], v, env);
    } else if n.children == [] {
      assert Meant([], Value(n.dep, env), Below(n, v, env), env) == [] && Vals([], env) == [] && Plain([]);
      assert [n] + rest[..0] == [n];
      OneVal(n, env);
    } else {
      var below := if n.kind.Menu? then MakeAnd(vis, n.visibility) else vis;
      var kids := Propagate(n.children, n.dep, below);
      MakeAndValue(vis, n.visibility, env);
      assert Value(below, env) == Below(n, v, env);
      assert [n] + rest[..0] == [n];
      hide Vals, Plain, Pending, Meant, FinalizeAll, Tidy, Value, Propagate, Parsed;
      PropagateMeant(n.children, n.dep, below, env);
      FinalizeAllVals(kids, below, env);
      TidyVals(FinalizeAll(kids, below), env);
      WithChildren(n, Tidy(FinalizeAll(kids, below)), Vals(FinalizeAll(kids, below), env), env);
    }
  }

  lemma {:induction false} AbsorbVals(n: Node, rest: seq<Node>, vis: Expr, env: Env)
    requires Constants(env) && Parsed(rest)
    ensures var s := Absorb(n, rest, vis);
            Plain(s.nodes) && Vals(s.nodes, env) == Pending(rest[..s.taken], Value(vis, env), env)
    decreases NodeSize(n) + Size(rest), 0
  {
    hide *;
    AbsorbUnfolds(n, rest, vis);
    if rest == [] || !AutoDep(n, rest[0]) {
      NothingListed(Value(vis, env), env);
    } else {
      var first, others := rest[0], rest[1..];
      var f := Finalize(first, others, vis);
      var tail := others[f.taken..];
      var more := Absorb(n, tail, vis);
      HeadFacts(rest, f.taken);
      FinalizeVals(first, others, vis, env);
      AbsorbVals(n, tail, vis, env);
      HeadVals(f.node, more.nodes, env);
      Parts(rest, f.taken, more.taken);
      PendingSplit([first] + others[..f.taken], tail[..more.taken], Value(vis, env), env);
    }
  }

  lemma Parts(nodes: seq<Node>, j: nat, k: nat)
    requires 1 + j + k <= |nodes|
    ensures nodes[..1 + j + k] == ([nodes[0]] + nodes[1..][..j]) + nodes[1..][j..][..k]
    ensures nodes == ([nodes[0]] + nodes[1..][..j]) + nodes[1..][j..]
  {
  }

  lemma AbsorbUnfolds(n: Node, rest: seq<Node>, vis: Expr)
    ensures rest == [] || !AutoDep(n, rest[0]) ==> Absorb(n, rest, vis) == Submenu([], 0)
    ensures rest != [] && AutoDep(n, rest[0]) ==>
              var f := Finalize(rest[0], rest[1..], vis);
              var more := Absorb(n, rest[1..][f.taken..], vis);
              Absorb(n, rest, vis) == Submenu([f.node] + more.nodes, 1 + f.taken + more.taken)
  {
    hide Finalize, AutoDep, Size;
  }

  lemma NothingListed(v: Tri, env: Env)
    ensures Vals([], env) == [] && Plain([]) && Pending([], v, env) == []
  {
  }

  /** The first of a list, and what is left after some more of it. */
  lemma HeadFacts(nodes: seq<Node>, k: nat)
    requires nodes != [] && k <= |nodes| - 1
    ensures Size(nodes) == NodeSize(nodes[0]) + Size(nodes[1..]) && Size(nodes[1..][k..]) <= Size(nodes[1..])
    ensures Parsed(nodes) ==> Parsed([nodes[0]]) && Parsed(nodes[1..]) && Parsed(nodes[1..][k..])
  {
    assert Size(nodes) == NodeSize(nodes[0]) + Size(nodes[1..]);
    hide Size, NodeSize, Parsed;
    SizeTail(nodes[1..], k);
    HeadParsed(nodes, k);
  }

  lemma HeadParsed(nodes: seq<Node>, k: nat)
    requires nodes != [] && k <= |nodes| - 1
    ensures Parsed(nodes) ==> Parsed([nodes[0]]) && Parsed(nodes[1..]) && Parsed(nodes[1..][k..])
  {
    hide Parsed;
    var first, others := [nodes[0]], nodes[1..];
    assert nodes == first + others;
    ParsedSplit(first, others);
    if Parsed(nodes) { ParsedTail(others, k); }
  }

  lemma {:induction false} FinalizeAllVals(nodes: seq<Node>, vis: Expr, env: Env)
    requires Constants(env) && Parsed(nodes)
    ensures Plain(FinalizeAll(nodes, vis)) && Vals(FinalizeAll(nodes, vis), env) == Pending(nodes, Value(vis, env), env)
    decreases Size(nodes), 2
  {
    hide *;
    FinalizeAllUnfolds(nodes, vis);
    if nodes == [] {
      NothingListed(Value(vis, env), env);
    } else {
      var first, others := nodes[0], nodes[1..];
      var f := Finalize(first, others, vis);
      var tail := others[f.taken..];
      HeadFacts(nodes, f.taken);
      FinalizeVals(first, others, vis, env);
      FinalizeAllVals(tail, vis, env);
      HeadVals(f.node, FinalizeAll(tail, vis), env);
      Parts(nodes, f.taken, |tail|);
      PendingSplit([first] + others[..f.taken], tail, Value(vis, env), env);
    }
  }

  lemma FinalizeAllUnfolds(nodes: seq<Node>, vis: Expr)
    ensures nodes == [] ==> FinalizeAll(nodes, vis) == []
    ensures nodes != [] ==>
              var f := Finalize(nodes[0], nodes[1..], vis);
              FinalizeAll(nodes, vis) == [f.node] + FinalizeAll(nodes[1..][f.taken..], vis)
  {
    hide Finalize, Size;
  }

  /**
   * Of the whole tree, against every environment: the items come out in the order they were parsed in, and the
   * conditions of each are the least of its own and of all that encloses it.
   */
  lemma FinalizedTree(top: Node, env: Env)
    requires Constants(env) && Parsed([top]) && top.kind.Menu?
    ensures Vals(Finalize(top, [], Leaf(Y)).node.children, env) == Meant(top.children, Value(top.dep, env), Value(top.visibility, env), env)
  {
    var f := Finalize(top, [], Leaf(Y));
    assert f.node.kind == top.kind && f.taken == 0 && Emit(f.node, env) == Emit(top, env);
    assert Parsed([]) && Value(Leaf(Y), env) == 2;
    assert Below(top, 2, env) == Value(top.visibility, env);
    hide Finalize, Vals, Pending, Meant, Emit, Plain, Value, Parsed;
    FinalizeVals(top, [], Leaf(Y), env);
    OneVal(f.node, env);
    OnePending(top, 2, env);
    assert [top] + [][..0] == [top];
    var meant := Meant(top.children, Value(top.dep, env), Value(top.visibility, env), env);
    assert ([Emit(top, env)] + Vals(f.node.children, env))[1..] == Vals(f.node.children, env);
    assert ([Emit(top, env)] + meant)[1..] == meant;
  }
}
