/** The shape of the finalized menu tree: which node ends up below which. */
module KconfigShape {
  import opened KconfigExpr
  import opened KconfigMenu
  import opened Wrappers

  /** What decides about the submenu a node goes into. */
  function Cond(n: Node): Expr
  {
    if n.prompt.Some? then n.prompt.value else n.dep
  }

  /** A node and the ids of all nodes it is below, from the top on. */
  datatype Spot = Spot(id: nat, path: seq<nat>)

  /** Where the nodes of a tree are. */
  function Spots(nodes: seq<Node>, path: seq<nat>): seq<Spot>
    decreases nodes
  {
    if nodes == [] then []
    else [Spot(nodes[0].id, path)] + Spots(nodes[0].children, path + [nodes[0].id]) + Spots(nodes[1..], path)
  }

  // ---------------------------------------------------------------------------------------------
  // The reference: one walk over the nodes as they were parsed, with the symbols that are open on a stack

  /** A node that others may go below: an open symbol, or none for the menu all are in; path is for what goes below it. */
  datatype Entry = Entry(sym: Option<nat>, path: seq<nat>)

  /** A symbol stays open as long as what comes next depends on it. */
  function Close(open: seq<Entry>, n: Node): (r: seq<Entry>)
    requires open != []
    ensures r != [] && r <= open
  {
    var top := open[|open| - 1];
    if |open| == 1 || (top.sym.Some? && DependsOn(Cond(n), top.sym.value)) then open else Close(open[..|open| - 1], n)
  }

  /** Nodes without a prompt are not entered, but for choices: what is below them goes beside them. */
  function Inner(n: Node, path: seq<nat>): seq<nat>
  {
    if n.prompt.Some? || n.kind.Choice? then path + [n.id] else path
  }

  function BelowVis(n: Node, vis: Expr): Expr
  {
    if n.kind.Menu? then MakeAnd(vis, n.visibility) else vis
  }

  /** Where nodes belong that have inherited their conditions. */
  function Place(nodes: seq<Node>, open: seq<Entry>, vis: Expr): seq<Spot>
    requires open != []
    decreases Size(nodes)
  {
    if nodes == [] then []
    else
      var n := nodes[0];
      var left := Close(open, n);
      var path := left[|left| - 1].path;
      var below := BelowVis(n, vis);
      (if n.kind.If? then [] else [Spot(n.id, path)])
      + (if n.kind.Symbol? then [] else Place(Propagate(n.children, n.dep, below), [Entry(None, Inner(n, path))], below))
      + Place(nodes[1..], if n.kind.Symbol? then left + [Entry(Some(n.kind.sym), Inner(n, path))] else left, vis)
  }

  // ---------------------------------------------------------------------------------------------
  // Flattening

  /** Where the nodes of a tree will be once it is flattened. */
  function Lifted(nodes: seq<Node>, path: seq<nat>): seq<Spot>
    decreases nodes
  {
    if nodes == [] then []
    else
      (if nodes[0].kind.If? then [] else [Spot(nodes[0].id, path)])
      + Lifted(nodes[0].children, Inner(nodes[0], path)) + Lifted(nodes[1..], path)
  }

  lemma {:induction false} LiftedSplit(a: seq<Node>, b: seq<Node>, path: seq<nat>)
    ensures Lifted(a + b, path) == Lifted(a, path) + Lifted(b, path)
  {
    if a == [] {
      assert a + b == b;
    } else {
      assert (a + b)[1..] == a[1..] + b;
      LiftedSplit(a[1..], b, path);
    }
  }

  lemma OneLifted(n: Node, path: seq<nat>)
    ensures Lifted([n], path) == (if n.kind.If? then [] else [Spot(n.id, path)]) + Lifted(n.children, Inner(n, path))
  {
    assert [n][1..] == [];
  }

  /** Only nodes with a prompt and choices have anything below them. */
  predicate Entered(n: Node)
  {
    n.children != [] ==> n.prompt.Some? || n.kind.Choice?
  }

  /** Nothing is left to flatten or to remove. */
  predicate Flat(nodes: seq<Node>)
    decreases nodes
  {
    nodes == [] || (Entered(nodes[0]) && !nodes[0].kind.If? && Flat(nodes[0].children) && Flat(nodes[1..]))
  }

  lemma {:induction false} FlatSplit(a: seq<Node>, b: seq<Node>)
    ensures Flat(a + b) <==> Flat(a) && Flat(b)
  {
    if a == [] {
      assert a + b == b;
    } else {
      assert (a + b)[1..] == a[1..] + b;
      FlatSplit(a[1..], b);
    }
  }

  /** Nothing is, below these nodes. */
  predicate FlatBelow(nodes: seq<Node>)
  {
    forall n | n in nodes :: Flat(n.children)
  }

  lemma {:induction false} FlatIsBelow(nodes: seq<Node>)
    requires Flat(nodes)
    ensures FlatBelow(nodes) && forall n | n in nodes :: Entered(n) && !n.kind.If?
  {
    if nodes != [] {
      FlatIsBelow(nodes[1..]);
      assert forall n | n in nodes :: n == nodes[0] || n in nodes[1..];
    }
  }

  /** A flat tree is where it says it is. */
  lemma {:induction false} FlatSpots(nodes: seq<Node>, path: seq<nat>)
    requires Flat(nodes)
    ensures Lifted(nodes, path) == Spots(nodes, path)
    decreases nodes
  {
    if nodes != [] {
      var n := nodes[0];
      if n.children == [] {
        assert Lifted([], Inner(n, path)) == [] && Spots([], path + [n.id]) == [];
      } else {
        FlatSpots(n.children, path + [n.id]);
      }
      FlatSpots(nodes[1..], path);
    }
  }

  /** Flattening moves what it should, and one pass is enough. */
  lemma {:induction false} FlattenLifts(nodes: seq<Node>, path: seq<nat>)
    requires FlatBelow(nodes)
    ensures Lifted(Flatten(nodes), path) == Lifted(nodes, path)
    ensures FlatBelow(Flatten(nodes)) && forall n | n in Flatten(nodes) :: Entered(n)
    decreases Size(nodes)
  {
    hide Lifted, Flat, Inner;
    if nodes != [] {
      var n, rest := nodes[0], nodes[1..];
      SizeSplit(n.children, rest);
      assert nodes == [n] + rest && n in nodes;
      LiftedSplit([n], rest, path);
      OneLifted(n, path);
      if n.children != [] && n.prompt.None? && !n.kind.Choice? {
        var bare := n.(children := []);
        FlatIsBelow(n.children);
        FlattenLifts(n.children + rest, path);
        LiftedSplit(n.children, rest, path);
        LiftedSplit([bare], Flatten(n.children + rest), path);
        OneLifted(bare, path);
        NoChildren(path);
        InnerSame(n, path);
        NoChildren(Inner(bare, path));
      } else {
        FlattenLifts(rest, path);
        LiftedSplit([n], Flatten(rest), path);
      }
    }
  }

  lemma NoChildren(path: seq<nat>)
    ensures Lifted([], path) == [] && Flat([])
  {
  }

  lemma InnerSame(n: Node, path: seq<nat>)
    requires n.prompt.None? && !n.kind.Choice?
    ensures Inner(n, path) == path
  {
  }

  lemma {:induction false} RemoveLifts(nodes: seq<Node>, path: seq<nat>)
    requires FlatBelow(nodes) && forall n | n in nodes :: Entered(n) && (n.kind.If? ==> n.children == [])
    ensures Lifted(RemoveIfs(nodes), path) == Lifted(nodes, path) && Flat(RemoveIfs(nodes))
  {
    hide Lifted, Inner;
    if nodes == [] {
      NoChildren(path);
    } else {
      var n, rest := nodes[0], nodes[1..];
      assert nodes == [n] + rest && n in nodes;
      RemoveLifts(rest, path);
      LiftedSplit([n], rest, path);
      LiftedSplit([n], RemoveIfs(rest), path);
      OneLifted(n, path);
      NoChildren(Inner(n, path));
      FlatSplit([n], RemoveIfs(rest));
      OneFlat(n);
      assert [] + RemoveIfs(rest) == RemoveIfs(rest);
    }
  }

  lemma OneFlat(n: Node)
    ensures Flat([n]) <==> Entered(n) && !n.kind.If? && Flat(n.children)
  {
    assert [n][1..] == [];
  }

  lemma TidyLifts(nodes: seq<Node>, path: seq<nat>)
    requires FlatBelow(nodes) && Plain(nodes)
    ensures Lifted(Tidy(nodes), path) == Lifted(nodes, path) && Flat(Tidy(nodes))
  {
    hide Lifted, Flat, Flatten, RemoveIfs, Plain, FlatBelow;
    FlattenLifts(nodes, path);
    IfsChildless(nodes);
    RemoveLifts(Flatten(nodes), path);
  }

  lemma IfsChildless(nodes: seq<Node>)
    requires Plain(nodes)
    ensures forall n | n in Flatten(nodes) :: n.kind.If? ==> n.children == []
  {
    hide Plain, Flatten;
    FlattenVals(nodes, SomeEnv());
  }

  // ---------------------------------------------------------------------------------------------
  // Submenus

  /**
   * The nodes that go below a symbol are a run right after it: of those that come to stand at its top each depends on the
   * symbol, and the first one left does not.
   */
  lemma {:induction false} SubmenuRun(n: Node, rest: seq<Node>, vis: Expr)
    requires n.kind.Symbol?
    ensures var s := Absorb(n, rest, vis);
            && (forall m | m in s.nodes :: DependsOn(Cond(m), n.kind.sym))
            && (s.taken < |rest| ==> !DependsOn(Cond(rest[s.taken]), n.kind.sym))
    decreases |rest|
  {
    hide Finalize, Absorb, DependsOn;
    AbsorbUnfolds(n, rest, vis);
    if rest != [] && AutoDep(n, rest[0]) {
      var f := Finalize(rest[0], rest[1..], vis);
      FinalizeKeeps(rest[0], rest[1..], vis);
      SubmenuRun(n, rest[1..][f.taken..], vis);
    }
  }

  lemma FinalizeKeeps(n: Node, rest: seq<Node>, vis: Expr)
    ensures var m := Finalize(n, rest, vis).node; m == n.(children := m.children)
  {
    hide Absorb, FinalizeAll, Tidy, Propagate;
  }

  lemma PlaceUnfolds(n: Node, rest: seq<Node>, open: seq<Entry>, vis: Expr)
    requires open != []
    ensures var left := Close(open, n);
            var path := left[|left| - 1].path;
            var below := BelowVis(n, vis);
            Place([n] + rest, open, vis) ==
              (if n.kind.If? then [] else [Spot(n.id, path)])
              + (if n.kind.Symbol? then [] else Place(Propagate(n.children, n.dep, below), [Entry(None, Inner(n, path))], below))
              + Place(rest, if n.kind.Symbol? then left + [Entry(Some(n.kind.sym), Inner(n, path))] else left, vis)
  {
    hide Close, Inner, BelowVis, Size, Propagate;
    assert ([n] + rest)[1..] == rest && ([n] + rest)[0] == n;
  }

  /** A symbol closes when the next node does not depend on it, and stays open when it does. */
  lemma CloseOne(open: seq<Entry>, e: Entry, n: Node)
    requires open != [] && e.sym.Some?
    ensures Close(open + [e], n) == if DependsOn(Cond(n), e.sym.value) then open + [e] else Close(open, n)
  {
    assert (open + [e])[..|open + [e]| - 1] == open;
  }

  lemma PlaceClosed(nodes: seq<Node>, open: seq<Entry>, e: Entry, vis: Expr)
    requires open != [] && e.sym.Some? && (nodes != [] ==> !DependsOn(Cond(nodes[0]), e.sym.value))
    ensures Place(nodes, open + [e], vis) == Place(nodes, open, vis)
  {
    hide Place, Close, DependsOn, Size;
    if nodes == [] {
      NothingToPlace(open + [e], vis);
      NothingToPlace(open, vis);
    } else {
      CloseOne(open, e, nodes[0]);
      assert nodes == [nodes[0]] + nodes[1..];
      PlaceUnfolds(nodes[0], nodes[1..], open + [e], vis);
      PlaceUnfolds(nodes[0], nodes[1..], open, vis);
    }
  }

  lemma Chained(a: seq<Spot>, b: seq<Spot>, c: seq<Spot>)
    ensures a + (b + c) == (a + b) + c && a + [] == a
  {
  }

  lemma {:induction false} FinalizePlace(n: Node, rest: seq<Node>, vis: Expr, open: seq<Entry>)
    requires open != [] && Close(open, n) == open && Parsed([n]) && Parsed(rest)
    ensures var f := Finalize(n, rest, vis);
            && Place([n] + rest, open, vis) == Lifted([f.node], open[|open| - 1].path) + Place(rest[f.taken..], open, vis)
            && Flat(f.node.children) && Plain([f.node])
    decreases NodeSize(n) + Size(rest), 1
  {
    hide *;
    ParsedParts(n);
    PlaceUnfolds(n, rest, open, vis);
    FinalizeUnfolds(n, rest, vis);
    var f := Finalize(n, rest, vis);
    var path := open[|open| - 1].path;
    OneLifted(f.node, path);
    InnerOf(n, f.node, path);
    NoneLeft(rest);
    if n.kind.Symbol? {
      var sub, e := Absorb(n, rest, vis), Entry(Some(n.kind.sym), Inner(n, path));
      AbsorbPlace(n, rest, vis, open, e);
      TidyLifts(sub.nodes, e.path);
      PlainTidy(n, sub.nodes);
      Chained([Spot(n.id, path)], Lifted(sub.nodes, e.path), Place(rest[sub.taken..], open, vis));
    } else if n.children == [] {
      NothingPlaced(n, [Entry(None, Inner(n, path))], vis);
      NoChildren(Inner(n, path));
      PlainLeaf(n);
    } else {
      var below := BelowVis(n, vis);
      var kids := Propagate(n.children, n.dep, below);
      KidsParsed(n, below);
      FinalizeAllPlace(kids, below, Entry(None, Inner(n, path)));
      TidyLifts(FinalizeAll(kids, below), Inner(n, path));
      PlainTidy(n, FinalizeAll(kids, below));
      Chained(if n.kind.If? then [] else [Spot(n.id, path)], Lifted(FinalizeAll(kids, below), Inner(n, path)), Place(rest, open, vis));
    }
  }

  lemma {:induction false} AbsorbPlace(n: Node, rest: seq<Node>, vis: Expr, open: seq<Entry>, e: Entry)
    requires open != [] && n.kind.Symbol? && e.sym == Some(n.kind.sym) && Parsed(rest)
    ensures var s := Absorb(n, rest, vis);
            && Place(rest, open + [e], vis) == Lifted(s.nodes, e.path) + Place(rest[s.taken..], open, vis)
            && FlatBelow(s.nodes) && Plain(s.nodes)
    decreases NodeSize(n) + Size(rest), 0
  {
    hide *;
    AbsorbUnfolds(n, rest, vis);
    DependsIs(n, rest);
    NoneLeft(rest);
    if rest == [] || !AutoDep(n, rest[0]) {
      PlaceClosed(rest, open, e, vis);
      NoChildren(e.path);
      NothingBelow();
    } else {
      var first, others := rest[0], rest[1..];
      var f := Finalize(first, others, vis);
      var tail := others[f.taken..];
      var more := Absorb(n, tail, vis);
      HeadFacts(rest, f.taken);
      CloseOne(open, e, first);
      assert rest == [first] + others;
      FinalizePlace(first, others, vis, open + [e]);
      AbsorbPlace(n, tail, vis, open, e);
      LiftedSplit([f.node], more.nodes, e.path);
      PlainSplit([f.node], more.nodes);
      BelowSplit(f.node, more.nodes);
      assert tail[more.taken..] == rest[1 + f.taken + more.taken..];
      Chained(Lifted([f.node], e.path), Lifted(more.nodes, e.path), Place(tail[more.taken..], open, vis));
    }
  }

  lemma {:induction false} FinalizeAllPlace(nodes: seq<Node>, vis: Expr, e: Entry)
    requires e.sym.None? && Parsed(nodes)
    ensures Place(nodes, [e], vis) == Lifted(FinalizeAll(nodes, vis), e.path)
    ensures FlatBelow(FinalizeAll(nodes, vis)) && Plain(FinalizeAll(nodes, vis))
    decreases Size(nodes), 2
  {
    hide *;
    FinalizeAllUnfolds(nodes, vis);
    if nodes == [] {
      NothingToPlace([e], vis);
      NoChildren(e.path);
      NothingBelow();
    } else {
      var first, others := nodes[0], nodes[1..];
      var f := Finalize(first, others, vis);
      var tail := others[f.taken..];
      HeadFacts(nodes, f.taken);
      CloseBase(e, first);
      assert nodes == [first] + others;
      FinalizePlace(first, others, vis, [e]);
      FinalizeAllPlace(tail, vis, e);
      LiftedSplit([f.node], FinalizeAll(tail, vis), e.path);
      PlainSplit([f.node], FinalizeAll(tail, vis));
      BelowSplit(f.node, FinalizeAll(tail, vis));
    }
  }

  /**
   * Of the whole tree: every node is where the walk puts it, below the innermost open symbol that it depends on or else in
   * the menu or choice it was written in, past all that have no prompt.
   */
  lemma FinalizedShape(top: Node)
    requires Parsed([top]) && top.kind.Menu?
    ensures var vis := MakeAnd(Leaf(Y), top.visibility);
            Spots(Finalize(top, [], Leaf(Y)).node.children, [top.id]) ==
            Place(Propagate(top.children, top.dep, vis), [Entry(None, [top.id])], vis)
  {
    hide *;
    var vis := MakeAnd(Leaf(Y), top.visibility);
    var kids := Propagate(top.children, top.dep, vis);
    FinalizeUnfolds(top, [], Leaf(Y));
    MenuVis(top, Leaf(Y));
    ParsedParts(top);
    KidsParsed(top, vis);
    if top.children == [] {
      NothingPlaced(top, [Entry(None, [top.id])], Leaf(Y));
      NoSpots([top.id]);
    } else {
      FinalizeAllPlace(kids, vis, Entry(None, [top.id]));
      TidyLifts(FinalizeAll(kids, vis), [top.id]);
      FlatSpots(Tidy(FinalizeAll(kids, vis)), [top.id]);
    }
  }

  lemma NoSpots(path: seq<nat>)
    ensures Spots([], path) == []
  {
  }

  // ---------------------------------------------------------------------------------------------
  // Small steps

  /** Any values will do for what does not depend on them. */
  function SomeEnv(): (env: Env)
    ensures Constants(env)
  {
    Env(s => if s == M then 1 else if s == Y then 2 else 0, (op, a, b) => false)
  }

  lemma ParsedParts(n: Node)
    requires Parsed([n])
    ensures (n.kind.If? ==> n.prompt.None?) && (n.kind.Symbol? ==> n.children == []) && Parsed(n.children)
  {
  }

  lemma FinalizeUnfolds(n: Node, rest: seq<Node>, vis: Expr)
    ensures var f := Finalize(n, rest, vis);
            if n.kind.Symbol? then
              var sub := Absorb(n, rest, vis); f == Final(n.(children := Tidy(sub.nodes)), sub.taken)
            else if n.children == [] then f == Final(n, 0)
            else
              var below := BelowVis(n, vis);
              f == Final(n.(children := Tidy(FinalizeAll(Propagate(n.children, n.dep, below), below))), 0)
  {
    hide Absorb, FinalizeAll, Tidy, Propagate, Size;
  }

  lemma MenuVis(n: Node, vis: Expr)
    requires n.kind.Menu?
    ensures BelowVis(n, vis) == MakeAnd(vis, n.visibility)
  {
  }

  lemma InnerOf(n: Node, m: Node, path: seq<nat>)
    requires m == n.(children := m.children)
    ensures Inner(m, path) == Inner(n, path)
  {
  }

  lemma NoneLeft(rest: seq<Node>)
    ensures rest[0..] == rest
  {
  }

  lemma PlainTidy(n: Node, nodes: seq<Node>)
    requires Plain(nodes) && (n.kind.If? ==> n.prompt.None?)
    ensures Plain([n.(children := Tidy(nodes))])
  {
    hide Tidy;
    var env := SomeEnv();
    TidyVals(nodes, env);
    OneVal(n.(children := Tidy(nodes)), env);
  }

  lemma PlainLeaf(n: Node)
    requires n.children == [] && (n.kind.If? ==> n.prompt.None?)
    ensures Plain([n])
  {
    assert [n][1..] == [];
  }

  lemma NothingToPlace(open: seq<Entry>, vis: Expr)
    requires open != []
    ensures Place([], open, vis) == []
  {
  }

  lemma NothingPlaced(n: Node, open: seq<Entry>, vis: Expr)
    requires open != [] && n.children == []
    ensures Place(Propagate(n.children, n.dep, BelowVis(n, vis)), open, BelowVis(n, vis)) == []
  {
  }

  lemma KidsParsed(n: Node, below: Expr)
    requires Parsed(n.children)
    ensures Parsed(Propagate(n.children, n.dep, below)) && Size(Propagate(n.children, n.dep, below)) < NodeSize(n)
  {
    hide Propagate, Parsed, Size;
    PropagateMeant(n.children, n.dep, below, SomeEnv());
  }

  lemma DependsIs(n: Node, rest: seq<Node>)
    requires n.kind.Symbol?
    ensures rest != [] ==> (AutoDep(n, rest[0]) <==> DependsOn(Cond(rest[0]), n.kind.sym))
  {
    hide DependsOn;
  }

  lemma NothingBelow()
    ensures FlatBelow([]) && Plain([])
  {
  }

  lemma BelowSplit(n: Node, rest: seq<Node>)
    ensures FlatBelow([n] + rest) <==> Flat(n.children) && FlatBelow(rest)
  {
    hide Flat;
    assert n in [n] + rest && forall m | m in rest :: m in [n] + rest;
  }

  lemma CloseBase(e: Entry, n: Node)
    ensures Close([e], n) == [e]
  {
  }
}
