/** What the search for loops and the evaluation have to do with each other, in configurations without choices. */
module KconfigLevels {
  import opened KconfigExpr
  import opened KconfigEval
  import opened KconfigLoops

  /** The search runs over the dependents of the symbols. */
  ghost predicate GraphOf(cfg: Config, deps: Graph)
  {
    && |deps| == |cfg.syms|
    && forall x, s: nat | 0 <= x < |cfg.syms| :: s in deps[x] <==> Sym(s) in Dependents(cfg, Sym(x))
  }

  /** All that WellFormed asks for but the levels. */
  ghost predicate Shaped(cfg: Config)
  {
    && cfg.choices == [] && cfg.modules < |cfg.syms| && !cfg.syms[cfg.modules].isConstant
    && forall s | 0 <= s < |cfg.syms| :: ShapedSym(cfg, s)
  }

  ghost predicate ShapedSym(cfg: Config, s: nat)
    requires s < |cfg.syms|
  {
    var sym := cfg.syms[s];
    && (sym.isDefined ==> forall x: nat | Mentions(cfg, Sym(s), x) :: x < |cfg.syms|)
    && sym.choice.None?
    && (!IsBoolTristate(sym.origType) ==> forall d | d in sym.defaults :: d.value.Leaf?)
    && (sym.constant.Some? ==> sym.isConstant && sym.origType.Tristate?)
    && (sym.isConstant ==> !sym.isDefined)
    && (!sym.isDefined ==> sym.prompts == [] && (sym.constant.Some? || sym.origType.Unknown?))
  }

  /** MODULES and symbols enough for it to depend on nothing else; none of them is a tristate. */
  ghost predicate ModulesCore(cfg: Config, core: set<nat>)
  {
    && cfg.modules in core
    && (forall s | s in core :: s < |cfg.syms| && (cfg.syms[s].origType.Tristate? ==> cfg.syms[s].constant.Some?))
    && (forall s, x: nat | s in core && cfg.syms[s].isDefined && Mentions(cfg, Sym(s), x) :: x in core)
  }

  ghost function Place(cfg: Config, order: seq<nat>, s: nat): (p: nat)
    requires s < |cfg.syms|
    ensures p <= |order|
  {
    if cfg.syms[s].isDefined && s in order then |order| - First(order, s) else 0
  }

  /** As the search finds them clear, the last first, with all others above MODULES. */
  ghost function Levels(cfg: Config, order: seq<nat>, core: set<nat>): (levels: seq<nat>)
    ensures |levels| == |cfg.syms|
    ensures forall s | 0 <= s < |levels| :: levels[s] == Place(cfg, order, s) + if s in core then 0 else |order| + 1
  {
    seq(|cfg.syms|, s requires 0 <= s < |cfg.syms| => Place(cfg, order, s) + if s in core then 0 else |order| + 1)
  }

  lemma PlacesRise(cfg: Config, deps: Graph, order: seq<nat>, x: nat, s: nat)
    requires Shaped(cfg) && GraphOf(cfg, deps) && Finished(deps, order)
    requires s < |cfg.syms| && cfg.syms[s].isDefined && Mentions(cfg, Sym(s), x) && x < |cfg.syms|
    requires s in order && (cfg.syms[x].isDefined ==> x in order)
    ensures Place(cfg, order, x) < Place(cfg, order, s)
  {
    if cfg.syms[x].isDefined {
      assert ShapedSym(cfg, x) && Sym(s) in Items(cfg);
      assert Sym(s) in Dependents(cfg, Sym(x));
      LevelsRise(deps, order, x, s);
    }
  }

  /** A clear search gives levels with which the configuration is well-formed, so that evaluation ends ... */
  lemma ClearGivesLevels(cfg: Config, deps: Graph, order: seq<nat>, core: set<nat>)
    requires Shaped(cfg) && ModulesCore(cfg, core) && GraphOf(cfg, deps) && Finished(deps, order)
    requires forall s | 0 <= s < |cfg.syms| && cfg.syms[s].isDefined :: s in order
    ensures WellFormed(cfg.(symLevel := Levels(cfg, order, core), choiceLevel := []))
  {
    var levels := Levels(cfg, order, core);
    var graded := cfg.(symLevel := levels, choiceLevel := []);
    forall s | 0 <= s < |cfg.syms| ensures WellFormedSym(graded, s) {
      assert ShapedSym(cfg, s);
      assert ExprsOf(graded, Sym(s)) == ExprsOf(cfg, Sym(s));
      forall x: nat | Mentions(graded, Sym(s), x) && cfg.syms[s].isDefined
        ensures x < |cfg.syms| && levels[x] < levels[s]
      {
        assert Mentions(cfg, Sym(s), x);
        PlacesRise(cfg, deps, order, x, s);
      }
    }
  }

  /** ... for which it takes such a core: with any levels, the symbols that are not above MODULES are one ... */
  lemma LevelsGiveCore(cfg: Config)
    requires WellFormed(cfg) && cfg.choices == []
    ensures ModulesCore(cfg, set s | 0 <= s < |cfg.syms| && cfg.symLevel[s] <= cfg.symLevel[cfg.modules])
  {
    hide Mentions;
    var core := set s | 0 <= s < |cfg.syms| && cfg.symLevel[s] <= cfg.symLevel[cfg.modules];
    forall s | s in core ensures WellFormedSym(cfg, s) {}
  }

  ghost function Graded(cfg: Config, levels: seq<nat>): Config
  {
    cfg.(symLevel := levels, choiceLevel := [])
  }

  /** ... so that after a clear search there are levels if and only if MODULES depends on no tristate. */
  lemma LevelsExactly(cfg: Config, deps: Graph, order: seq<nat>)
    requires Shaped(cfg) && GraphOf(cfg, deps) && Finished(deps, order)
    requires forall s | 0 <= s < |cfg.syms| && cfg.syms[s].isDefined :: s in order
    ensures (exists levels :: WellFormed(Graded(cfg, levels))) <==> (exists core :: ModulesCore(cfg, core))
  {
    hide WellFormed, ModulesCore, Shaped, GraphOf, Finished;
    if core :| ModulesCore(cfg, core) {
      ClearGivesLevels(cfg, deps, order, core);
      assert WellFormed(Graded(cfg, Levels(cfg, order, core)));
    }
    if levels :| WellFormed(Graded(cfg, levels)) {
      assert cfg.choices == [] by { NoChoices(cfg); }
      CoreOfGraded(cfg, levels);
    }
  }

  lemma NoChoices(cfg: Config)
    requires Shaped(cfg)
    ensures cfg.choices == []
  {
  }

  lemma CoreOfGraded(cfg: Config, levels: seq<nat>)
    requires WellFormed(Graded(cfg, levels)) && cfg.choices == []
    ensures exists core :: ModulesCore(cfg, core)
  {
    hide WellFormed;
    var graded := Graded(cfg, levels);
    LevelsGiveCore(graded);
    var core :| ModulesCore(graded, core);
    SameCore(cfg, graded, core);
  }

  lemma SameCore(cfg: Config, graded: Config, core: set<nat>)
    requires graded == Graded(cfg, graded.symLevel) && ModulesCore(graded, core)
    ensures ModulesCore(cfg, core)
  {
    forall s, x: nat | s in core && cfg.syms[s].isDefined && Mentions(cfg, Sym(s), x) ensures x in core {
      assert ExprsOf(graded, Sym(s)) == ExprsOf(cfg, Sym(s));
      assert Mentions(graded, Sym(s), x);
    }
  }

  lemma {:induction false} LevelsFall(cfg: Config, deps: Graph, loop: seq<nat>, k: nat)
    requires WellFormed(cfg) && cfg.choices == [] && GraphOf(cfg, deps) && Path(deps, loop) && k < |loop|
    ensures cfg.symLevel[loop[k]] <= cfg.symLevel[loop[0]]
  {
    if k > 0 {
      LevelsFall(cfg, deps, loop, k - 1);
      DependentAbove(cfg, deps, loop[k], loop[k - 1]);
    }
  }

  lemma DependentAbove(cfg: Config, deps: Graph, x: nat, s: nat)
    requires WellFormed(cfg) && cfg.choices == [] && GraphOf(cfg, deps) && x < |deps| && s in deps[x]
    ensures s < |cfg.syms| && cfg.symLevel[x] < cfg.symLevel[s]
  {
    assert Sym(s) in Dependents(cfg, Sym(x));
    assert WellFormedSym(cfg, s);
  }

  /** ... and where there are such levels, there is no loop for it to find. */
  lemma LevelsExcludeLoops(cfg: Config, deps: Graph, loop: seq<nat>)
    requires WellFormed(cfg) && cfg.choices == [] && GraphOf(cfg, deps)
    ensures !Cycle(deps, loop)
  {
    if Cycle(deps, loop) {
      LevelsFall(cfg, deps, loop, |loop| - 1);
      DependentAbove(cfg, deps, loop[0], loop[|loop| - 1]);
    }
  }
}
