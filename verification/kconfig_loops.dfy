/** Dependency loops: the three-colour search over the dependents of each symbol. */
module KconfigLoops {

  datatype Outcome = Clear | OnTheWay(loop: seq<nat>) | Raised(loop: seq<nat>)

  type Graph = seq<seq<nat>>

  ghost predicate InRange(deps: Graph)
  {
    forall s, d | 0 <= s < |deps| && d in deps[s] :: d < |deps|
  }

  /** Each element depends on the next, as the tuple is put together on the way back. */
  ghost predicate Path(deps: Graph, loop: seq<nat>)
  {
    && (forall i | 0 <= i < |loop| :: loop[i] < |deps|)
    && forall i | 0 <= i < |loop| - 1 :: loop[i] in deps[loop[i + 1]]
  }

  ghost predicate Cycle(deps: Graph, loop: seq<nat>)
  {
    |loop| > 0 && Path(deps, loop) && loop[|loop| - 1] in deps[loop[0]]
  }

  /** Symbols in an order in which each comes after all its dependents. */
  ghost predicate Finished(deps: Graph, order: seq<nat>)
  {
    forall p | 0 <= p < |order| :: order[p] < |deps| && forall d | d in deps[order[p]] :: d in order[..p]
  }

  // ---------------------------------------------------------------------------------------------

  ghost function First(order: seq<nat>, s: nat): (p: nat)
    requires s in order
    ensures p < |order| && order[p] == s && forall q | 0 <= q < p :: order[q] != s
  {
    if order[0] == s then 0 else First(order[1..], s) + 1
  }

  lemma DependentsFirst(deps: Graph, order: seq<nat>, s: nat, d: nat)
    requires Finished(deps, order) && s in order && d in order && s < |deps|
    ensures d in deps[s] ==> First(order, d) < First(order, s)
  {
    var p := First(order, s);
    if d in deps[s] {
      assert d in order[..p];
    }
  }

  /** Along a path the places go up. */
  lemma {:induction false} PathClimbs(deps: Graph, order: seq<nat>, loop: seq<nat>, k: nat)
    requires Finished(deps, order) && Path(deps, loop) && k < |loop| && (forall i | 0 <= i < |loop| :: loop[i] in order)
    ensures First(order, loop[0]) <= First(order, loop[k])
  {
    if k > 0 {
      PathClimbs(deps, order, loop, k - 1);
      DependentsFirst(deps, order, loop[k], loop[k - 1]);
    }
  }

  lemma NoCycle(deps: Graph, order: seq<nat>, loop: seq<nat>)
    requires Finished(deps, order) && Path(deps, loop) && |loop| > 0 && (forall i | 0 <= i < |loop| :: loop[i] in order)
    ensures !Cycle(deps, loop)
  {
    PathClimbs(deps, order, loop, |loop| - 1);
    DependentsFirst(deps, order, loop[0], loop[|loop| - 1]);
  }

  class Search {
    const deps: Graph
    const visited: array<nat>
    ghost var order: seq<nat>   // The symbols found clear, in the order they were

    ghost predicate Valid(stack: seq<nat>)
      reads this, visited
    {
      && InRange(deps) && visited.Length == |deps| && Finished(deps, order)
      && (forall s | s in stack :: s < |deps|) && (forall s | s in order :: s < |deps|)
      && (forall s | 0 <= s < |deps| :: visited[s] <= 2)
      && (forall s | 0 <= s < |deps| :: visited[s] == 1 <==> s in stack)
      && (forall s | 0 <= s < |deps| :: visited[s] == 2 <==> s in order)
    }

    ghost function White(): set<nat>
      reads visited
    {
      set s | 0 <= s < visited.Length && visited[s] == 0
    }

    constructor (deps: Graph)
      requires InRange(deps)
      ensures Valid([]) && this.deps == deps && fresh(visited)
    {
      this.deps := deps;
      visited := new nat[|deps|](_ => 0);
      order := [];
    }

    /** What an unfinished loop is: it starts at a symbol on the stack and has come back to this one. */
    ghost predicate Unfinished(loop: seq<nat>, sym: nat, stack: seq<nat>)
    {
      |loop| > 0 && Path(deps, loop) && loop[|loop| - 1] == sym && loop[0] in stack
    }

    method CheckSym(sym: nat, ghost stack: seq<nat>) returns (r: Outcome)
      requires Valid(stack) && sym < |deps|
      modifies this, visited
      ensures r.Clear? ==> Valid(stack) && sym in order && old(order) <= order && White() <= old(White())
      ensures r.OnTheWay? ==> Unfinished(r.loop, sym, stack)
      ensures r.Raised? ==> Cycle(deps, r.loop)
      decreases White()
    {
      if visited[sym] == 0 {
        visited[sym] := 1;
        ghost var inner := stack + [sym];
        assert forall s | s in inner :: s in stack || s == sym;
        assert forall s | s in stack :: s in inner;
        assert White() < old(White()) by { assert sym in old(White()) && sym !in White(); }
        for k := 0 to |deps[sym]|
          invariant Valid(inner) && old(order) <= order && White() < old(White())
          invariant forall d | d in deps[sym][..k] :: d in order
        {
          var dep := deps[sym][k];
          assert dep in deps[sym];
          ghost var before := order;
          r := CheckSym(dep, inner);
          if r.Raised? {
            return;
          }
          if r.OnTheWay? {
            r := FoundLoop(r.loop, sym, stack, dep);
            return;
          }
          assert forall d | d in before :: d in order;
          assert deps[sym][..k + 1] == deps[sym][..k] + [dep];
        }
        assert deps[sym][..|deps[sym]|] == deps[sym];
        Finish(sym, stack);
        r := Clear;
      } else if visited[sym] == 2 {
        r := Clear;
      } else {
        r := OnTheWay([sym]);
      }
    }

    /** Adds the symbol to the loop on the way back; at the symbol the loop started from it is raised. */
    method FoundLoop(loop: seq<nat>, cur: nat, ghost stack: seq<nat>, ghost dep: nat) returns (r: Outcome)
      requires cur < |deps| && dep in deps[cur] && Unfinished(loop, dep, stack + [cur])
      ensures r.OnTheWay? ==> Unfinished(r.loop, cur, stack)
      ensures r.Raised? ==> Cycle(deps, r.loop)
      ensures !r.Clear?
    {
      if cur != loop[0] {
        r := OnTheWay(loop + [cur]);
      } else {
        r := Raised(loop);
      }
    }

    method Finish(sym: nat, ghost stack: seq<nat>)
      requires Valid(stack + [sym]) && sym < |deps| && sym !in stack && forall d | d in deps[sym] :: d in order
      modifies visited, this`order
      ensures Valid(stack) && order == old(order) + [sym] && White() == old(White())
    {
      ghost var inner := stack + [sym];
      assert forall s | s in inner :: s in stack || s == sym;
      assert forall s | s in stack :: s in inner;
      visited[sym] := 2;
      ghost var was := order;
      order := order + [sym];
      forall p | 0 <= p < |order| ensures order[p] < |deps| && forall d | d in deps[order[p]] :: d in order[..p] {
        assert p < |was| ==> order[p] == was[p] && order[..p] == was[..p];
        assert p == |was| ==> order[..p] == was;
      }
    }

    /** The search from every defined symbol raises exactly if there is a loop, and what it raises is one. */
    method CheckAll(defined: seq<nat>) returns (r: Outcome)
      requires Valid([]) && (forall s | s in defined :: s < |deps|)
      requires forall s, d | 0 <= s < |deps| && d in deps[s] :: d in defined
      modifies this, visited
      ensures !r.OnTheWay?
      ensures r.Raised? ==> Cycle(deps, r.loop)
      ensures r.Clear? ==> Finished(deps, order) && (forall s | s in defined :: s in order) && forall loop :: !Cycle(deps, loop)
    {
      for k := 0 to |defined|
        invariant Valid([]) && forall s | s in defined[..k] :: s in order
      {
        ghost var before := order;
        assert defined[k] in defined;
        r := CheckSym(defined[k], []);
        if r.Raised? {
          return;
        }
        assert forall s | s in before :: s in order;
        assert defined[..k + 1] == defined[..k] + [defined[k]];
      }
      assert defined[..|defined|] == defined;
      r := Clear;
      forall loop ensures !Cycle(deps, loop) {
        if Path(deps, loop) && |loop| > 0 && loop[|loop| - 1] in deps[loop[0]] {
          CycleDefined(deps, loop, defined);
          NoCycle(deps, order, loop);
        }
      }
    }
  }

  lemma CycleDefined(deps: Graph, loop: seq<nat>, defined: seq<nat>)
    requires Path(deps, loop) && |loop| > 0 && loop[|loop| - 1] in deps[loop[0]]
    requires forall s, d | 0 <= s < |deps| && d in deps[s] :: d in defined
    ensures forall i | 0 <= i < |loop| :: loop[i] in defined
  {
    forall i | 0 <= i < |loop| ensures loop[i] in defined {
      assert i < |loop| - 1 ==> loop[i] in deps[loop[i + 1]];
    }
  }

  /** A clear search gives each symbol a level above all that it depends on. */
  lemma LevelsRise(deps: Graph, order: seq<nat>, x: nat, s: nat)
    requires Finished(deps, order) && x in order && x < |deps| && s in deps[x]
    ensures s in order && |order| - First(order, s) > |order| - First(order, x)
  {
    var p := First(order, x);
    assert s in order[..p];
    DependentsFirst(deps, order, x, s);
  }
}
