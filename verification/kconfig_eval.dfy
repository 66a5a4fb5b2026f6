/** A Kconfig configuration, and the value of each attribute of its symbols and choices from scratch. */
module KconfigEval {
  import opened KconfigExpr
  import opened Wrappers

  datatype Type = Unknown | Bool | Tristate | String | Int | Hex

  datatype Default = Default(value: Expr, cond: Expr)
  datatype Range = Range(low: nat, high: nat, cond: Expr)

  /** A symbol after the menu tree is finalized; prompts holds the condition of each prompt. */
  datatype Symbol = Symbol(
    name: string,
    origType: Type,
    isDefined: bool,            // Has a menu node; constants never do
    isConstant: bool,
    constant: Option<Tri>,      // The fixed value of n, m and y
    prompts: seq<Expr>,
    defaults: seq<Default>,
    ranges: seq<Range>,
    revDep: Expr,
    weakRevDep: Expr,
    directDep: Expr,
    choice: Option<nat>)

  datatype ChoiceDefault = ChoiceDefault(sym: nat, cond: Expr)

  datatype Choice = Choice(
    origType: Type,
    isOptional: bool,
    prompts: seq<Expr>,
    defaults: seq<ChoiceDefault>,
    syms: seq<nat>)

  datatype Item = Sym(id: nat) | Cho(id: nat)

  /** parse is Python's int(text, base), format its str or hex; level orders the items, see WellFormed. */
  datatype Config = Config(
    syms: seq<Symbol>,
    choices: seq<Choice>,
    modules: nat,
    parse: (string, nat) -> Option<int>,
    format: (int, nat) -> string,
    symLevel: seq<nat>,
    choiceLevel: seq<nat>)

  /** A cached attribute of an item. */
  datatype Key = VisKey(item: Item) | TriKey(sym: nat) | StrKey(sym: nat) | SelKey(choice: nat)

  datatype Cached = TriVal(tri: Tri) | StrVal(str: string) | SelVal(sel: Option<nat>)

  datatype UserValue = UserTri(tri: Tri) | UserStr(str: string)

  /** Everything set_value and unset_value can change. */
  datatype User = User(symVal: map<nat, UserValue>, choiceVal: map<nat, Tri>, choiceSel: map<nat, nat>)

  type Look = Key -> Cached

  function AsTri(c: Cached): Tri { if c.TriVal? then c.tri else 0 }

  function AsStr(c: Cached): string { if c.StrVal? then c.str else "" }

  function AsSel(c: Cached): Option<nat> { if c.SelVal? then c.sel else None }

  predicate IsBoolTristate(t: Type) { t.Bool? || t.Tristate? }

  function ItemOf(k: Key): Item
  {
    match k
    case VisKey(i) => i
    case TriKey(s) => Sym(s)
    case StrKey(s) => Sym(s)
    case SelKey(c) => Cho(c)
  }

  predicate ValidItem(cfg: Config, i: Item)
  {
    match i
    case Sym(s) => s < |cfg.syms|
    case Cho(c) => c < |cfg.choices|
  }

  predicate ValidKey(cfg: Config, k: Key) { ValidItem(cfg, ItemOf(k)) }

  // ---------------------------------------------------------------------------------------------
  // One evaluation, as a function of what it reads. A traced result carries the keys it looked at.

  datatype Traced<T> = Traced(v: T, seen: set<Key>)

  predicate LexLess(a: string, b: string)
  {
    if |b| == 0 then false
    else if |a| == 0 then true
    else a[0] < b[0] || (a[0] == b[0] && LexLess(a[1..], b[1..]))
  }

  function Compare(a: string, b: string): int { if LexLess(a, b) then -1 else if a == b then 0 else 1 }

  function Base(t: Type): nat { if t.Hex? then 16 else if t.Int? then 10 else 0 }

  predicate Outcome(op: RelOp, comp: int)
  {
    match op
    case Equal => comp == 0
    case Unequal => comp != 0
    case Less => comp < 0
    case LessEqual => comp <= 0
    case Greater => comp > 0
    case GreaterEqual => comp >= 0
  }

  function SymType(cfg: Config, s: nat): Type { if s < |cfg.syms| then cfg.syms[s].origType else Unknown }

  /** A symbol as a number, if it is one. */
  function ToNum(cfg: Config, look: Look, s: nat): Option<int>
  {
    var t := SymType(cfg, s);
    if IsBoolTristate(t) then Some(AsTri(look(TriKey(s)))) else cfg.parse(AsStr(look(StrKey(s))), Base(t))
  }

  function NumKey(cfg: Config, s: nat): Key
  {
    if IsBoolTristate(SymType(cfg, s)) then TriKey(s) else StrKey(s)
  }

  predicate RelValue(cfg: Config, look: Look, op: RelOp, a: nat, b: nat)
  {
    var strings := Compare(AsStr(look(StrKey(a))), AsStr(look(StrKey(b))));
    var comp :=
      if SymType(cfg, a).String? && SymType(cfg, b).String? then strings
      else
        var x, y := ToNum(cfg, look, a), ToNum(cfg, look, b);
        if x.Some? && y.Some? then x.value - y.value else strings;
    Outcome(op, comp)
  }

  function RelReads(cfg: Config, look: Look, a: nat, b: nat): set<Key>
  {
    if SymType(cfg, a).String? && SymType(cfg, b).String? then {StrKey(a), StrKey(b)}
    else if ToNum(cfg, look, a).None? then {NumKey(cfg, a), StrKey(a), StrKey(b)}
    else if ToNum(cfg, look, b).None? then {NumKey(cfg, a), NumKey(cfg, b), StrKey(a), StrKey(b)}
    else {NumKey(cfg, a), NumKey(cfg, b)}
  }

  function EnvOf(cfg: Config, look: Look): Env
  {
    Env((s: nat) => AsTri(look(TriKey(s))), (op: RelOp, a: nat, b: nat) => RelValue(cfg, look, op, a, b))
  }

  function Val(cfg: Config, look: Look, e: Expr): Tri { Value(e, EnvOf(cfg, look)) }

  /** The keys an evaluation with short cuts looks at. */
  function Reads(cfg: Config, look: Look, e: Expr): set<Key>
  {
    match e
    case Leaf(s) => {TriKey(s)}
    case And(l, r) => Reads(cfg, look, l) + if Val(cfg, look, l) == 0 then {} else Reads(cfg, look, r)
    case Or(l, r) => Reads(cfg, look, l) + if Val(cfg, look, l) == 2 then {} else Reads(cfg, look, r)
    case Not(x) => Reads(cfg, look, x)
    case Rel(_, a, b) => RelReads(cfg, look, a, b)
  }

  /** The largest prompt condition from index i on. */
  function PromptsFrom(cfg: Config, look: Look, ps: seq<Expr>, i: nat): Traced<Tri>
    requires i <= |ps|
    decreases |ps| - i
  {
    if i == |ps| then Traced(0, {})
    else
      var rest := PromptsFrom(cfg, look, ps, i + 1);
      Traced(Max(Val(cfg, look, ps[i]), rest.v), Reads(cfg, look, ps[i]) + rest.seen)
  }

  function ModulesOff(cfg: Config, look: Look): Traced<bool>
  {
    Traced(AsTri(look(TriKey(cfg.modules))) == 0, {TriKey(cfg.modules)})
  }

  function ChoiceMode(cfg: Config, user: User, look: Look, c: nat): Traced<Tri>
    requires c < |cfg.choices|
  {
    var low: Tri := if cfg.choices[c].isOptional then 0 else 1;
    var wanted := if c in user.choiceVal then Max(low, user.choiceVal[c]) else low;
    var val := Min(wanted, AsTri(look(VisKey(Cho(c)))));
    var read := {VisKey(Cho(c))};
    if val != 1 then Traced(val, read)
    else if cfg.choices[c].origType.Tristate? then
      var off := ModulesOff(cfg, look);
      Traced(if off.v then 2 else val, read + off.seen)
    else Traced(if cfg.choices[c].origType.Bool? then 2 else val, read)
  }

  /** Whether a tristate symbol counts as bool for now. */
  function Demoted(cfg: Config, user: User, look: Look, s: nat): Traced<bool>
    requires s < |cfg.syms|
    requires cfg.syms[s].choice.Some? ==> cfg.syms[s].choice.value < |cfg.choices|
  {
    var off := ModulesOff(cfg, look);
    if cfg.syms[s].choice.Some? then
      var mode := ChoiceMode(cfg, user, look, cfg.syms[s].choice.value);
      if mode.v == 2 then Traced(true, mode.seen) else Traced(off.v, mode.seen + off.seen)
    else off
  }

  function IsBool(cfg: Config, user: User, look: Look, s: nat): Traced<bool>
    requires s < |cfg.syms|
    requires cfg.syms[s].choice.Some? ==> cfg.syms[s].choice.value < |cfg.choices|
  {
    if cfg.syms[s].origType.Tristate? then Demoted(cfg, user, look, s)
    else Traced(cfg.syms[s].origType.Bool?, {})
  }

  function SymVis(cfg: Config, user: User, look: Look, s: nat): Traced<Tri>
    requires s < |cfg.syms|
    requires cfg.syms[s].choice.Some? ==> cfg.syms[s].choice.value < |cfg.choices|
  {
    var vis := PromptsFrom(cfg, look, cfg.syms[s].prompts, 0);
    if vis.v != 1 then vis
    else if !cfg.syms[s].origType.Tristate? then Traced(2, vis.seen)
    else
      var dem := Demoted(cfg, user, look, s);
      Traced(if dem.v then 2 else 1, vis.seen + dem.seen)
  }

  function ChoiceVis(cfg: Config, look: Look, c: nat): Traced<Tri>
    requires c < |cfg.choices|
  {
    var vis := PromptsFrom(cfg, look, cfg.choices[c].prompts, 0);
    if vis.v != 1 then vis
    else if !cfg.choices[c].origType.Tristate? then Traced(2, vis.seen)
    else
      var off := ModulesOff(cfg, look);
      Traced(if off.v then 2 else 1, vis.seen + off.seen)
  }

  /** The first default from index i on whose condition holds. */
  function DefaultsFrom(cfg: Config, look: Look, ds: seq<Default>, i: nat): Traced<Tri>
    requires i <= |ds|
    decreases |ds| - i
  {
    if i == |ds| then Traced(0, {})
    else
      var cond := Val(cfg, look, ds[i].cond);
      var read := Reads(cfg, look, ds[i].cond);
      if cond != 0 then Traced(Min(Val(cfg, look, ds[i].value), cond), read + Reads(cfg, look, ds[i].value))
      else
        var rest := DefaultsFrom(cfg, look, ds, i + 1);
        Traced(rest.v, read + rest.seen)
  }

  /** The value before reverse dependencies: the user's, or defaults and implies. */
  function TriBase(cfg: Config, user: User, look: Look, s: nat): Traced<Tri>
    requires s < |cfg.syms|
  {
    var sym := cfg.syms[s];
    var vis := AsTri(look(VisKey(Sym(s))));
    if vis != 0 && s in user.symVal && user.symVal[s].UserTri? then
      Traced(Min(user.symVal[s].tri, vis), {VisKey(Sym(s))})
    else
      var def := DefaultsFrom(cfg, look, sym.defaults, 0);
      var read := {VisKey(Sym(s))} + def.seen + Reads(cfg, look, sym.weakRevDep);
      var weak := Val(cfg, look, sym.weakRevDep);
      if weak == 0 then Traced(def.v, read)
      else Traced(if Val(cfg, look, sym.directDep) != 0 then Max(weak, def.v) else def.v,
                  read + Reads(cfg, look, sym.directDep))
  }

  function TriFree(cfg: Config, user: User, look: Look, s: nat): Traced<Tri>
    requires s < |cfg.syms|
    requires cfg.syms[s].choice.None?
  {
    var sym := cfg.syms[s];
    var base := TriBase(cfg, user, look, s);
    var rev := Val(cfg, look, sym.revDep);
    var val := if rev != 0 then Max(rev, base.v) else base.v;
    var read := base.seen + Reads(cfg, look, sym.revDep) + if rev != 0 then Reads(cfg, look, sym.directDep) else {};
    if val != 1 then Traced(val, read)
    else
      var isBool := IsBool(cfg, user, look, s);
      if isBool.v then Traced(2, read + isBool.seen)
      else Traced(if Val(cfg, look, sym.weakRevDep) == 2 then 2 else 1,
                  read + isBool.seen + Reads(cfg, look, sym.weakRevDep))
  }

  function SymTri(cfg: Config, user: User, look: Look, s: nat): Traced<Tri>
    requires s < |cfg.syms|
  {
    var sym := cfg.syms[s];
    if sym.constant.Some? then Traced(sym.constant.value, {})
    else if !IsBoolTristate(sym.origType) then Traced(0, {})
    else if sym.choice.None? then TriFree(cfg, user, look, s)
    else if AsTri(look(VisKey(Sym(s)))) == 0 then Traced(0, {VisKey(Sym(s))})
    else Traced(if AsSel(look(SelKey(sym.choice.value))) == Some(s) then 2 else 0,
                {VisKey(Sym(s)), SelKey(sym.choice.value)})
  }

  /** The bounds of the first range from index i on whose condition holds. */
  function RangesFrom(cfg: Config, look: Look, rs: seq<Range>, base: nat, i: nat): Traced<Option<(int, int)>>
    requires i <= |rs|
    decreases |rs| - i
  {
    if i == |rs| then Traced(None, {})
    else
      var read := Reads(cfg, look, rs[i].cond);
      if Val(cfg, look, rs[i].cond) != 0 then
        Traced(Some((Number(cfg, AsStr(look(StrKey(rs[i].low))), base), Number(cfg, AsStr(look(StrKey(rs[i].high))), base))),
               read + {StrKey(rs[i].low), StrKey(rs[i].high)})
      else
        var rest := RangesFrom(cfg, look, rs, base, i + 1);
        Traced(rest.v, read + rest.seen)
  }

  /** Text that is no number counts as zero. */
  function Number(cfg: Config, text: string, base: nat): int
  {
    var n := cfg.parse(text, base);
    if n.Some? then n.value else 0
  }

  /** The text of the first default from index i on whose condition holds. */
  function StrDefaultsFrom(cfg: Config, look: Look, ds: seq<Default>, i: nat): Traced<Option<string>>
    requires i <= |ds|
    requires forall d | d in ds :: d.value.Leaf?
    decreases |ds| - i
  {
    if i == |ds| then Traced(None, {})
    else
      var read := Reads(cfg, look, ds[i].cond);
      if Val(cfg, look, ds[i].cond) != 0 then
        Traced(Some(AsStr(look(StrKey(ds[i].value.sym)))), read + {StrKey(ds[i].value.sym)})
      else
        var rest := StrDefaultsFrom(cfg, look, ds, i + 1);
        Traced(rest.v, read + rest.seen)
  }

  function UserText(user: User, s: nat): Option<string>
  {
    if s in user.symVal && user.symVal[s].UserStr? then Some(user.symVal[s].str) else None
  }

  function SymNumText(cfg: Config, user: User, look: Look, s: nat): Traced<string>
    requires s < |cfg.syms|
    requires cfg.syms[s].origType.Int? || cfg.syms[s].origType.Hex?
    requires forall d | d in cfg.syms[s].defaults :: d.value.Leaf?
  {
    var sym := cfg.syms[s];
    var base := Base(sym.origType);
    var range := RangesFrom(cfg, look, sym.ranges, base, 0);
    var read := {VisKey(Sym(s))} + range.seen;
    var text := UserText(user, s);
    if AsTri(look(VisKey(Sym(s)))) != 0 && text.Some? && text.value != "" then
      var n := Number(cfg, text.value, base);
      Traced(if range.v.Some? && n < range.v.value.0 then cfg.format(range.v.value.0, base)
             else if range.v.Some? && n > range.v.value.1 then cfg.format(range.v.value.1, base)
             else text.value,
             read)
    else
      var def := StrDefaultsFrom(cfg, look, sym.defaults, 0);
      var num := if def.v.Some? then Number(cfg, def.v.value, base) else 0;
      var plain := if def.v.Some? then def.v.value else if sym.origType.Int? then "0" else "0x0";
      Traced(if range.v.Some? && num < range.v.value.0 then cfg.format(range.v.value.0, base)
             else if range.v.Some? && num > range.v.value.1 then cfg.format(range.v.value.1, base)
             else plain,
             read + def.seen)
  }

  function SymStr(cfg: Config, user: User, look: Look, s: nat): Traced<string>
    requires s < |cfg.syms|
    requires !IsBoolTristate(cfg.syms[s].origType) ==> forall d | d in cfg.syms[s].defaults :: d.value.Leaf?
  {
    var sym := cfg.syms[s];
    if IsBoolTristate(sym.origType) then
      Traced(["n", "m", "y"][AsTri(look(TriKey(s)))], {TriKey(s)})
    else if sym.origType.Unknown? then Traced(sym.name, {})
    else if sym.origType.String? then
      var text := UserText(user, s);
      if AsTri(look(VisKey(Sym(s)))) != 0 && text.Some? then Traced(text.value, {VisKey(Sym(s))})
      else
        var def := StrDefaultsFrom(cfg, look, sym.defaults, 0);
        Traced(if def.v.Some? then def.v.value else "", {VisKey(Sym(s))} + def.seen)
    else SymNumText(cfg, user, look, s)
  }

  /** The first choice default from index i on that holds and is visible. */
  function ChoiceDefaultsFrom(cfg: Config, look: Look, ds: seq<ChoiceDefault>, i: nat): Traced<Option<nat>>
    requires i <= |ds|
    decreases |ds| - i
  {
    if i == |ds| then Traced(None, {})
    else
      var read := Reads(cfg, look, ds[i].cond);
      var rest := ChoiceDefaultsFrom(cfg, look, ds, i + 1);
      if Val(cfg, look, ds[i].cond) == 0 then Traced(rest.v, read + rest.seen)
      else if AsTri(look(VisKey(Sym(ds[i].sym)))) != 0 then Traced(Some(ds[i].sym), read + {VisKey(Sym(ds[i].sym))})
      else Traced(rest.v, read + {VisKey(Sym(ds[i].sym))} + rest.seen)
  }

  /** The first visible member from index i on, only among those without a user value if untouched. */
  function VisibleFrom(user: User, look: Look, ms: seq<nat>, untouched: bool, i: nat): Traced<Option<nat>>
    requires i <= |ms|
    decreases |ms| - i
  {
    if i == |ms| then Traced(None, {})
    else if AsTri(look(VisKey(Sym(ms[i])))) != 0 && (untouched ==> ms[i] !in user.symVal) then
      Traced(Some(ms[i]), {VisKey(Sym(ms[i]))})
    else
      var rest := VisibleFrom(user, look, ms, untouched, i + 1);
      Traced(rest.v, {VisKey(Sym(ms[i]))} + rest.seen)
  }

  /** The last visible member below index i. */
  function LastVisible(look: Look, ms: seq<nat>, i: nat): Traced<Option<nat>>
    requires i <= |ms|
  {
    if i == 0 then Traced(None, {})
    else if AsTri(look(VisKey(Sym(ms[i - 1])))) != 0 then Traced(Some(ms[i - 1]), {VisKey(Sym(ms[i - 1]))})
    else
      var rest := LastVisible(look, ms, i - 1);
      Traced(rest.v, {VisKey(Sym(ms[i - 1]))} + rest.seen)
  }

  function FromDefaults(cfg: Config, user: User, look: Look, c: nat): Traced<Option<nat>>
    requires c < |cfg.choices|
  {
    var def := ChoiceDefaultsFrom(cfg, look, cfg.choices[c].defaults, 0);
    if def.v.Some? then def
    else
      var first := VisibleFrom(user, look, cfg.choices[c].syms, false, 0);
      Traced(first.v, def.seen + first.seen)
  }

  predicate SetToNo(user: User, s: nat) { s in user.symVal && user.symVal[s] == UserTri(0) }

  function Selection(cfg: Config, user: User, look: Look, c: nat): Traced<Option<nat>>
    requires c < |cfg.choices|
  {
    var read := {VisKey(Cho(c))} + if c in user.choiceSel then {VisKey(Sym(user.choiceSel[c]))} else {};
    if c in user.choiceSel && AsTri(look(VisKey(Sym(user.choiceSel[c])))) != 0 then
      Traced(Some(user.choiceSel[c]), read)
    else
      var def := FromDefaults(cfg, user, look, c);
      if def.v.Some? && !SetToNo(user, def.v.value) then Traced(def.v, read + def.seen)
      else
        var first := VisibleFrom(user, look, cfg.choices[c].syms, true, 0);
        if first.v.Some? then Traced(first.v, read + def.seen + first.seen)
        else
          var last := LastVisible(look, cfg.choices[c].syms, |cfg.choices[c].syms|);
          Traced(last.v, read + def.seen + first.seen + last.seen)
  }

  /** One evaluation of any attribute. */
  ghost function Run(cfg: Config, user: User, look: Look, k: Key): Traced<Cached>
    requires WellFormed(cfg) && ValidKey(cfg, k)
  {
    match k
    case VisKey(Sym(s)) => assert WellFormedSym(cfg, s); var r := SymVis(cfg, user, look, s); Traced(TriVal(r.v), r.seen)
    case VisKey(Cho(c)) => var r := ChoiceVis(cfg, look, c); Traced(TriVal(r.v), r.seen)
    case TriKey(s) => var r := SymTri(cfg, user, look, s); Traced(TriVal(r.v), r.seen)
    case StrKey(s) => assert WellFormedSym(cfg, s); var r := SymStr(cfg, user, look, s); Traced(StrVal(r.v), r.seen)
    case SelKey(c) => var r := Selection(cfg, user, look, c); Traced(SelVal(r.v), r.seen)
  }

  // ---------------------------------------------------------------------------------------------
  // Which item depends on which

  function DefaultExprs(ds: seq<Default>): seq<Expr>
  {
    if ds == [] then [] else [ds[0].value, ds[0].cond] + DefaultExprs(ds[1..])
  }

  function RangeExprs(rs: seq<Range>): seq<Expr>
  {
    if rs == [] then [] else [Leaf(rs[0].low), Leaf(rs[0].high), rs[0].cond] + RangeExprs(rs[1..])
  }

  function CondExprs(ds: seq<ChoiceDefault>): seq<Expr>
  {
    if ds == [] then [] else [ds[0].cond] + CondExprs(ds[1..])
  }

  /** The expressions an item is registered as depending on, in the order it is done. */
  function ExprsOf(cfg: Config, i: Item): seq<Expr>
    requires ValidItem(cfg, i)
  {
    match i
    case Sym(s) =>
      var sym := cfg.syms[s];
      sym.prompts + DefaultExprs(sym.defaults) + [sym.revDep, sym.weakRevDep] + RangeExprs(sym.ranges) + [sym.directDep]
    case Cho(c) => cfg.choices[c].prompts + CondExprs(cfg.choices[c].defaults)
  }

  predicate Mentions(cfg: Config, i: Item, x: nat)
    requires ValidItem(cfg, i)
  {
    exists e | e in ExprsOf(cfg, i) :: x in Leaves(e)
  }

  lemma {:induction false} DefaultListed(ds: seq<Default>, n: nat)
    requires n < |ds|
    ensures ds[n].value in DefaultExprs(ds) && ds[n].cond in DefaultExprs(ds)
  {
    if n > 0 { DefaultListed(ds[1..], n - 1); }
  }

  lemma {:induction false} RangeListed(rs: seq<Range>, n: nat)
    requires n < |rs|
    ensures Leaf(rs[n].low) in RangeExprs(rs) && Leaf(rs[n].high) in RangeExprs(rs) && rs[n].cond in RangeExprs(rs)
  {
    if n > 0 { RangeListed(rs[1..], n - 1); }
  }

  lemma {:induction false} CondListed(ds: seq<ChoiceDefault>, n: nat)
    requires n < |ds|
    ensures ds[n].cond in CondExprs(ds)
  {
    if n > 0 { CondListed(ds[1..], n - 1); }
  }

  lemma ExprMentioned(cfg: Config, i: Item, e: Expr)
    requires ValidItem(cfg, i) && e in ExprsOf(cfg, i)
    ensures forall x | x in Leaves(e) :: Mentions(cfg, i, x)
  {
  }

  function Items(cfg: Config): set<Item>
  {
    (set s | 0 <= s < |cfg.syms| && cfg.syms[s].isDefined :: Sym(s)) + (set c | 0 <= c < |cfg.choices| :: Cho(c))
  }

  /** The items whose value may change with that of j. */
  function Dependents(cfg: Config, j: Item): set<Item>
    requires ValidItem(cfg, j)
  {
    match j
    case Sym(x) =>
      (set i | i in Items(cfg) && ValidItem(cfg, i) && !cfg.syms[x].isConstant && Mentions(cfg, i, x)) +
      (set c | 0 <= c < |cfg.choices| && x in cfg.choices[c].syms :: Cho(c))
    case Cho(c) => set s | s in cfg.choices[c].syms :: Sym(s)
  }

  ghost function Level(cfg: Config, i: Item): nat
    requires |cfg.symLevel| == |cfg.syms| && |cfg.choiceLevel| == |cfg.choices| && ValidItem(cfg, i)
  {
    match i
    case Sym(s) => cfg.symLevel[s]
    case Cho(c) => cfg.choiceLevel[c]
  }

  ghost predicate WellFormedSym(cfg: Config, s: nat)
    requires |cfg.symLevel| == |cfg.syms| && |cfg.choiceLevel| == |cfg.choices| && s < |cfg.syms|
  {
    var sym := cfg.syms[s];
    && (sym.isDefined ==> forall x: nat | Mentions(cfg, Sym(s), x) :: x < |cfg.syms| && cfg.symLevel[x] < cfg.symLevel[s])
    && (sym.choice.Some? ==>
          && sym.choice.value < |cfg.choices|
          && s in cfg.choices[sym.choice.value].syms
          && sym.isDefined)
    && (sym.origType.Tristate? && sym.constant.None? ==> Below(cfg, cfg.modules, cfg.symLevel[s]))
    && (!IsBoolTristate(sym.origType) ==> forall d | d in sym.defaults :: d.value.Leaf?)
    && (sym.constant.Some? ==> sym.isConstant && sym.origType.Tristate?)
    && (sym.isConstant ==> !sym.isDefined)
    && (!sym.isDefined ==> sym.prompts == [] && (sym.constant.Some? || sym.origType.Unknown?))
  }

  ghost predicate Below(cfg: Config, s: nat, level: nat)
    requires |cfg.symLevel| == |cfg.syms|
  {
    s < |cfg.syms| && cfg.symLevel[s] < level
  }

  ghost predicate WellFormedChoice(cfg: Config, c: nat)
    requires |cfg.symLevel| == |cfg.syms| && |cfg.choiceLevel| == |cfg.choices| && c < |cfg.choices|
  {
    var choice := cfg.choices[c];
    && (forall x: nat | Mentions(cfg, Cho(c), x) :: x < |cfg.syms| && cfg.symLevel[x] < cfg.choiceLevel[c])
    && (forall s | s in choice.syms :: s < |cfg.syms| && cfg.syms[s].isDefined && cfg.symLevel[s] == cfg.choiceLevel[c])
    && (choice.origType.Tristate? ==> Below(cfg, cfg.modules, cfg.choiceLevel[c]))
    && (forall d | d in choice.defaults :: d.sym < |cfg.syms| && cfg.symLevel[d.sym] <= cfg.choiceLevel[c])
  }

  ghost predicate DefaultOf(cfg: Config, c: nat, x: nat)
    requires c < |cfg.choices|
  {
    exists d | d in cfg.choices[c].defaults :: d.sym == x
  }

  /** A default of a choice with a prompt that is neither a member nor mentioned by it: the choice is not registered with it. */
  ghost predicate Stray(cfg: Config, c: nat, x: nat)
    requires c < |cfg.choices|
  {
    DefaultOf(cfg, c, x) && x !in cfg.choices[c].syms && !Mentions(cfg, Cho(c), x) && x < |cfg.syms| && cfg.syms[x].prompts != []
  }

  /** Whatever selections read of the visibility of a symbol without a prompt is n at all times. */
  predicate Pinned(cfg: Config, k: Key, r: Key)
  {
    k.SelKey? && r.VisKey? && r.item.Sym? && r.item.id < |cfg.syms| && cfg.syms[r.item.id].prompts == []
  }

  ghost predicate Covered(cfg: Config)
  {
    forall c, x: nat | 0 <= c < |cfg.choices| :: !Stray(cfg, c, x)
  }

  /**
   * The dependencies form no loop: level rises along them, a choice is level with its members, and
   * MODULES lies below every tristate item, as they all consult it.
   */
  ghost predicate WellFormed(cfg: Config)
  {
    && |cfg.symLevel| == |cfg.syms|
    && |cfg.choiceLevel| == |cfg.choices|
    && cfg.modules < |cfg.syms|
    && !cfg.syms[cfg.modules].isConstant
    && (forall s | 0 <= s < |cfg.syms| :: WellFormedSym(cfg, s))
    && (forall c | 0 <= c < |cfg.choices| :: WellFormedChoice(cfg, c))
  }

  ghost predicate WellFormedUser(cfg: Config, user: User)
  {
    forall c | c in user.choiceSel ::
      c < |cfg.choices| && user.choiceSel[c] < |cfg.syms| && cfg.syms[user.choiceSel[c]].choice == Some(c)
  }

  /** Evaluation goes from higher to lower ranks only. */
  ghost function Rank(cfg: Config, k: Key): nat
    requires WellFormed(cfg) && ValidKey(cfg, k)
  {
    5 * Level(cfg, ItemOf(k)) +
    match k
    case VisKey(Cho(_)) => 0
    case VisKey(Sym(_)) => 1
    case SelKey(_) => 2
    case TriKey(_) => 3
    case StrKey(_) => 4
  }

  /** What evaluating k may look at: lower ranks, on items that invalidate the item of k but for stray defaults. */
  ghost predicate MayRead(cfg: Config, k: Key, r: Key)
    requires WellFormed(cfg) && ValidKey(cfg, k)
  {
    && ValidKey(cfg, r)
    && Rank(cfg, r) < Rank(cfg, k)
    && (|| ItemOf(r) == ItemOf(k)
        || (ItemOf(r).Sym? && cfg.syms[ItemOf(r).id].isConstant)
        || (r == TriKey(cfg.modules) && ItemOf(k) in Items(cfg))
        || ItemOf(k) in Dependents(cfg, ItemOf(r))
        || Pinned(cfg, k, r)
        || (k.SelKey? && ItemOf(r).Sym? && Stray(cfg, k.choice, ItemOf(r).id)))
  }

  /** r is an attribute of a symbol that i mentions. */
  ghost predicate LeafRead(cfg: Config, i: Item, r: Key)
    requires ValidItem(cfg, i)
  {
    (r.TriKey? || r.StrKey?) && Mentions(cfg, i, r.sym)
  }

  lemma {:induction false} ReadsLeaves(cfg: Config, look: Look, e: Expr)
    ensures forall r | r in Reads(cfg, look, e) :: (r.TriKey? || r.StrKey?) && r.sym in Leaves(e)
  {
    match e
    case Leaf(_) =>
    case And(l, r) => ReadsLeaves(cfg, look, l); ReadsLeaves(cfg, look, r);
    case Or(l, r) => ReadsLeaves(cfg, look, l); ReadsLeaves(cfg, look, r);
    case Not(x) => ReadsLeaves(cfg, look, x);
    case Rel(_, _, _) =>
  }

  lemma {:induction false} PromptReads(cfg: Config, look: Look, i: Item, ps: seq<Expr>, n: nat)
    requires ValidItem(cfg, i) && n <= |ps|
    requires ps == match i case Sym(s) => cfg.syms[s].prompts case Cho(c) => cfg.choices[c].prompts
    ensures forall r | r in PromptsFrom(cfg, look, ps, n).seen :: LeafRead(cfg, i, r)
    decreases |ps| - n
  {
    if n < |ps| {
      ReadsLeaves(cfg, look, ps[n]);
      ExprMentioned(cfg, i, ps[n]);
      PromptReads(cfg, look, i, ps, n + 1);
    }
  }

  lemma {:induction false} DefaultReads(cfg: Config, look: Look, s: nat, n: nat)
    requires s < |cfg.syms| && n <= |cfg.syms[s].defaults|
    ensures forall r | r in DefaultsFrom(cfg, look, cfg.syms[s].defaults, n).seen :: LeafRead(cfg, Sym(s), r)
    ensures (forall d | d in cfg.syms[s].defaults :: d.value.Leaf?) ==>
              forall r | r in StrDefaultsFrom(cfg, look, cfg.syms[s].defaults, n).seen :: LeafRead(cfg, Sym(s), r)
    decreases |cfg.syms[s].defaults| - n
  {
    var ds := cfg.syms[s].defaults;
    if n < |ds| {
      ReadsLeaves(cfg, look, ds[n].cond);
      ReadsLeaves(cfg, look, ds[n].value);
      DefaultListed(ds, n);
      ExprMentioned(cfg, Sym(s), ds[n].cond);
      ExprMentioned(cfg, Sym(s), ds[n].value);
      DefaultReads(cfg, look, s, n + 1);
    }
  }

  lemma {:induction false} RangeReads(cfg: Config, look: Look, s: nat, base: nat, n: nat)
    requires s < |cfg.syms| && n <= |cfg.syms[s].ranges|
    ensures forall r | r in RangesFrom(cfg, look, cfg.syms[s].ranges, base, n).seen :: LeafRead(cfg, Sym(s), r)
    decreases |cfg.syms[s].ranges| - n
  {
    var rs := cfg.syms[s].ranges;
    if n < |rs| {
      ReadsLeaves(cfg, look, rs[n].cond);
      RangeListed(rs, n);
      ExprMentioned(cfg, Sym(s), rs[n].cond);
      ExprMentioned(cfg, Sym(s), Leaf(rs[n].low));
      ExprMentioned(cfg, Sym(s), Leaf(rs[n].high));
      RangeReads(cfg, look, s, base, n + 1);
    }
  }

  lemma {:induction false} ChoiceDefaultReads(cfg: Config, look: Look, c: nat, n: nat)
    requires c < |cfg.choices| && n <= |cfg.choices[c].defaults|
    ensures forall r | r in ChoiceDefaultsFrom(cfg, look, cfg.choices[c].defaults, n).seen ::
              LeafRead(cfg, Cho(c), r) || (r.VisKey? && r.item.Sym? && DefaultOf(cfg, c, r.item.id))
    decreases |cfg.choices[c].defaults| - n
  {
    var ds := cfg.choices[c].defaults;
    if n < |ds| {
      ReadsLeaves(cfg, look, ds[n].cond);
      CondListed(ds, n);
      ExprMentioned(cfg, Cho(c), ds[n].cond);
      assert DefaultOf(cfg, c, ds[n].sym);
      ChoiceDefaultReads(cfg, look, c, n + 1);
    }
  }

  lemma {:induction false} VisibleReads(user: User, look: Look, ms: seq<nat>, untouched: bool, n: nat)
    requires n <= |ms|
    ensures forall r | r in VisibleFrom(user, look, ms, untouched, n).seen :: r.VisKey? && r.item.Sym? && r.item.id in ms
    ensures forall r | r in LastVisible(look, ms, |ms| - n).seen :: r.VisKey? && r.item.Sym? && r.item.id in ms
    decreases |ms| - n
  {
    if n < |ms| { VisibleReads(user, look, ms, untouched, n + 1); }
  }

  /** Every evaluation stays within what the dependency sets and the ranks allow. */
  lemma RunReads(cfg: Config, user: User, look: Look, k: Key)
    requires WellFormed(cfg) && ValidKey(cfg, k) && WellFormedUser(cfg, user)
    ensures forall r | r in Run(cfg, user, look, k).seen :: MayRead(cfg, k, r)
  {
    match k
    case VisKey(Sym(s)) => SymVisReads(cfg, user, look, s);
    case VisKey(Cho(c)) => ChoiceVisReads(cfg, user, look, c);
    case TriKey(s) => SymTriReads(cfg, user, look, s);
    case StrKey(s) => SymStrReads(cfg, user, look, s);
    case SelKey(c) => SelectionReads(cfg, user, look, c);
  }

  lemma LeafMayRead(cfg: Config, k: Key, r: Key)
    requires WellFormed(cfg) && ValidKey(cfg, k) && LeafRead(cfg, ItemOf(k), r)
    requires ItemOf(k).Sym? ==> cfg.syms[ItemOf(k).id].isDefined
    ensures MayRead(cfg, k, r)
  {
    match ItemOf(k)
    case Sym(s) => assert WellFormedSym(cfg, s);
    case Cho(c) => assert WellFormedChoice(cfg, c);
  }

  lemma ChoiceVisReads(cfg: Config, user: User, look: Look, c: nat)
    requires WellFormed(cfg) && c < |cfg.choices|
    ensures forall r | r in Run(cfg, user, look, VisKey(Cho(c))).seen :: MayRead(cfg, VisKey(Cho(c)), r)
  {
    assert WellFormedChoice(cfg, c);
    PromptReads(cfg, look, Cho(c), cfg.choices[c].prompts, 0);
    forall r | LeafRead(cfg, Cho(c), r) ensures MayRead(cfg, VisKey(Cho(c)), r) { LeafMayRead(cfg, VisKey(Cho(c)), r); }
  }

  lemma SymVisReads(cfg: Config, user: User, look: Look, s: nat)
    requires WellFormed(cfg) && s < |cfg.syms|
    ensures forall r | r in Run(cfg, user, look, VisKey(Sym(s))).seen :: MayRead(cfg, VisKey(Sym(s)), r)
  {
    assert WellFormedSym(cfg, s);
    if cfg.syms[s].isDefined {
      PromptReads(cfg, look, Sym(s), cfg.syms[s].prompts, 0);
      forall r | LeafRead(cfg, Sym(s), r) ensures MayRead(cfg, VisKey(Sym(s)), r) { LeafMayRead(cfg, VisKey(Sym(s)), r); }
      if cfg.syms[s].origType.Tristate? { DemotedReads(cfg, user, look, VisKey(Sym(s))); }
    }
  }

  lemma DemotedReads(cfg: Config, user: User, look: Look, k: Key)
    requires WellFormed(cfg) && ValidKey(cfg, k) && ItemOf(k).Sym?
    requires cfg.syms[ItemOf(k).id].origType.Tristate? && cfg.syms[ItemOf(k).id].constant.None?
    requires WellFormedSym(cfg, ItemOf(k).id)
    ensures forall r | r in Demoted(cfg, user, look, ItemOf(k).id).seen :: MayRead(cfg, k, r)
  {
    var s := ItemOf(k).id;
    assert WellFormedSym(cfg, s);
    if cfg.syms[s].choice.Some? {
      assert WellFormedChoice(cfg, cfg.syms[s].choice.value);
    }
  }

  lemma SymTriReads(cfg: Config, user: User, look: Look, s: nat)
    requires WellFormed(cfg) && s < |cfg.syms|
    ensures forall r | r in Run(cfg, user, look, TriKey(s)).seen :: MayRead(cfg, TriKey(s), r)
  {
    var sym := cfg.syms[s];
    assert WellFormedSym(cfg, s);
    if IsBoolTristate(sym.origType) && sym.constant.None? {
      forall r | LeafRead(cfg, Sym(s), r) ensures MayRead(cfg, TriKey(s), r) { LeafMayRead(cfg, TriKey(s), r); }
      if sym.choice.None? {
        DefaultReads(cfg, look, s, 0);
        ReadsLeaves(cfg, look, sym.weakRevDep);
        ReadsLeaves(cfg, look, sym.directDep);
        ReadsLeaves(cfg, look, sym.revDep);
        ExprMentioned(cfg, Sym(s), sym.weakRevDep);
        ExprMentioned(cfg, Sym(s), sym.directDep);
        ExprMentioned(cfg, Sym(s), sym.revDep);
        if sym.origType.Tristate? { DemotedReads(cfg, user, look, TriKey(s)); }
      } else {
        assert WellFormedChoice(cfg, sym.choice.value);
      }
    }
  }

  lemma SymStrReads(cfg: Config, user: User, look: Look, s: nat)
    requires WellFormed(cfg) && s < |cfg.syms|
    ensures forall r | r in Run(cfg, user, look, StrKey(s)).seen :: MayRead(cfg, StrKey(s), r)
  {
    var sym := cfg.syms[s];
    assert WellFormedSym(cfg, s);
    if !IsBoolTristate(sym.origType) && !sym.origType.Unknown? {
      forall r | LeafRead(cfg, Sym(s), r) ensures MayRead(cfg, StrKey(s), r) { LeafMayRead(cfg, StrKey(s), r); }
      DefaultReads(cfg, look, s, 0);
      RangeReads(cfg, look, s, Base(sym.origType), 0);
    }
  }

  lemma FromDefaultsReads(cfg: Config, user: User, look: Look, c: nat)
    requires WellFormed(cfg) && c < |cfg.choices|
    ensures forall r | r in FromDefaults(cfg, user, look, c).seen :: MayRead(cfg, SelKey(c), r)
  {
    assert WellFormedChoice(cfg, c);
    ChoiceDefaultReads(cfg, look, c, 0);
    VisibleReads(user, look, cfg.choices[c].syms, false, 0);
    forall r | r in FromDefaults(cfg, user, look, c).seen ensures MayRead(cfg, SelKey(c), r) {
      if LeafRead(cfg, Cho(c), r) {
        LeafMayRead(cfg, SelKey(c), r);
      } else if r.item.id in cfg.choices[c].syms {
        MemberMayRead(cfg, c, r.item.id);
      } else {
        DefaultMayRead(cfg, c, r.item.id);
      }
    }
  }

  lemma SelectionReads(cfg: Config, user: User, look: Look, c: nat)
    requires WellFormed(cfg) && c < |cfg.choices| && WellFormedUser(cfg, user)
    ensures forall r | r in Run(cfg, user, look, SelKey(c)).seen :: MayRead(cfg, SelKey(c), r)
  {
    var ms := cfg.choices[c].syms;
    FromDefaultsReads(cfg, user, look, c);
    VisibleReads(user, look, ms, true, 0);
    if c in user.choiceSel { assert WellFormedSym(cfg, user.choiceSel[c]); }
    forall r | r in Selection(cfg, user, look, c).seen && r !in FromDefaults(cfg, user, look, c).seen
      ensures MayRead(cfg, SelKey(c), r)
    {
      if r != VisKey(Cho(c)) { MemberMayRead(cfg, c, r.item.id); }
    }
  }

  lemma MemberMayRead(cfg: Config, c: nat, m: nat)
    requires WellFormed(cfg) && c < |cfg.choices| && m in cfg.choices[c].syms
    ensures MayRead(cfg, SelKey(c), VisKey(Sym(m)))
  {
    assert WellFormedChoice(cfg, c);
    assert WellFormedSym(cfg, m);
  }

  lemma DefaultMayRead(cfg: Config, c: nat, x: nat)
    requires WellFormed(cfg) && c < |cfg.choices| && DefaultOf(cfg, c, x) && x !in cfg.choices[c].syms
    ensures MayRead(cfg, SelKey(c), VisKey(Sym(x)))
  {
    assert WellFormedChoice(cfg, c);
    if !Stray(cfg, c, x) && !cfg.syms[x].isConstant && cfg.syms[x].prompts != [] {
      assert Cho(c) in Items(cfg) && Mentions(cfg, Cho(c), x);
    }
  }

  // ---------------------------------------------------------------------------------------------
  // An evaluation depends only on what it reads

  ghost predicate Agree(a: Look, b: Look, ks: set<Key>) { forall k | k in ks :: a(k) == b(k) }

  ghost predicate SameAt(u: User, w: User, i: Item)
  {
    match i
    case Sym(s) => (s in u.symVal <==> s in w.symVal) && (s in u.symVal ==> u.symVal[s] == w.symVal[s])
    case Cho(c) =>
      && (c in u.choiceVal <==> c in w.choiceVal) && (c in u.choiceVal ==> u.choiceVal[c] == w.choiceVal[c])
      && (c in u.choiceSel <==> c in w.choiceSel) && (c in u.choiceSel ==> u.choiceSel[c] == w.choiceSel[c])
  }

  /** The user's part of an item matters only where its visibility is read, and for a symbol only if it is visible. */
  ghost predicate UsersAgree(u: User, w: User, look: Look, ks: set<Key>)
  {
    forall i | VisKey(i) in ks :: SameAt(u, w, i) || (i.Sym? && AsTri(look(VisKey(i))) == 0)
  }

  lemma {:induction false} ExprAgree(cfg: Config, a: Look, b: Look, e: Expr)
    requires Agree(a, b, Reads(cfg, a, e))
    ensures Val(cfg, a, e) == Val(cfg, b, e) && Reads(cfg, a, e) == Reads(cfg, b, e)
  {
    match e
    case Leaf(_) =>
    case And(l, r) => ExprAgree(cfg, a, b, l); if Val(cfg, a, l) != 0 { ExprAgree(cfg, a, b, r); }
    case Or(l, r) => ExprAgree(cfg, a, b, l); if Val(cfg, a, l) != 2 { ExprAgree(cfg, a, b, r); }
    case Not(x) => ExprAgree(cfg, a, b, x);
    case Rel(op, x, y) =>
  }

  lemma {:induction false} PromptsAgree(cfg: Config, a: Look, b: Look, ps: seq<Expr>, n: nat)
    requires n <= |ps| && Agree(a, b, PromptsFrom(cfg, a, ps, n).seen)
    ensures PromptsFrom(cfg, a, ps, n) == PromptsFrom(cfg, b, ps, n)
    decreases |ps| - n
  {
    if n < |ps| {
      ExprAgree(cfg, a, b, ps[n]);
      PromptsAgree(cfg, a, b, ps, n + 1);
    }
  }

  lemma {:induction false} DefaultsAgree(cfg: Config, a: Look, b: Look, ds: seq<Default>, n: nat)
    requires n <= |ds| && Agree(a, b, DefaultsFrom(cfg, a, ds, n).seen)
    ensures DefaultsFrom(cfg, a, ds, n) == DefaultsFrom(cfg, b, ds, n)
    decreases |ds| - n
  {
    if n < |ds| {
      ExprAgree(cfg, a, b, ds[n].cond);
      if Val(cfg, a, ds[n].cond) != 0 { ExprAgree(cfg, a, b, ds[n].value); } else { DefaultsAgree(cfg, a, b, ds, n + 1); }
    }
  }

  lemma {:induction false} StrDefaultsAgree(cfg: Config, a: Look, b: Look, ds: seq<Default>, n: nat)
    requires n <= |ds| && forall d | d in ds :: d.value.Leaf?
    requires Agree(a, b, StrDefaultsFrom(cfg, a, ds, n).seen)
    ensures StrDefaultsFrom(cfg, a, ds, n) == StrDefaultsFrom(cfg, b, ds, n)
    decreases |ds| - n
  {
    if n < |ds| {
      ExprAgree(cfg, a, b, ds[n].cond);
      if Val(cfg, a, ds[n].cond) == 0 { StrDefaultsAgree(cfg, a, b, ds, n + 1); }
    }
  }

  lemma {:induction false} RangesAgree(cfg: Config, a: Look, b: Look, rs: seq<Range>, base: nat, n: nat)
    requires n <= |rs| && Agree(a, b, RangesFrom(cfg, a, rs, base, n).seen)
    ensures RangesFrom(cfg, a, rs, base, n) == RangesFrom(cfg, b, rs, base, n)
    decreases |rs| - n
  {
    if n < |rs| {
      ExprAgree(cfg, a, b, rs[n].cond);
      if Val(cfg, a, rs[n].cond) == 0 { RangesAgree(cfg, a, b, rs, base, n + 1); }
    }
  }

  lemma {:induction false} ChoiceDefaultsAgree(cfg: Config, a: Look, b: Look, ds: seq<ChoiceDefault>, n: nat)
    requires n <= |ds| && Agree(a, b, ChoiceDefaultsFrom(cfg, a, ds, n).seen)
    ensures ChoiceDefaultsFrom(cfg, a, ds, n) == ChoiceDefaultsFrom(cfg, b, ds, n)
    ensures var r := ChoiceDefaultsFrom(cfg, a, ds, n);
            r.v.Some? ==> VisKey(Sym(r.v.value)) in r.seen && AsTri(a(VisKey(Sym(r.v.value)))) != 0
    decreases |ds| - n
  {
    if n < |ds| {
      ExprAgree(cfg, a, b, ds[n].cond);
      var taken := Val(cfg, a, ds[n].cond) != 0 && AsTri(a(VisKey(Sym(ds[n].sym)))) != 0;
      if !taken { ChoiceDefaultsAgree(cfg, a, b, ds, n + 1); }
    }
  }

  lemma {:induction false} VisibleAgree(u: User, w: User, a: Look, b: Look, ms: seq<nat>, untouched: bool, n: nat)
    requires n <= |ms| && Agree(a, b, VisibleFrom(u, a, ms, untouched, n).seen)
    requires UsersAgree(u, w, a, VisibleFrom(u, a, ms, untouched, n).seen)
    ensures VisibleFrom(u, a, ms, untouched, n) == VisibleFrom(w, b, ms, untouched, n)
    ensures var r := VisibleFrom(u, a, ms, untouched, n);
            r.v.Some? ==> VisKey(Sym(r.v.value)) in r.seen && AsTri(a(VisKey(Sym(r.v.value)))) != 0
    decreases |ms| - n
  {
    if n < |ms| {
      assert VisKey(Sym(ms[n])) in VisibleFrom(u, a, ms, untouched, n).seen;
      var taken := AsTri(a(VisKey(Sym(ms[n])))) != 0 && (untouched ==> ms[n] !in u.symVal);
      if !taken { VisibleAgree(u, w, a, b, ms, untouched, n + 1); }
    }
  }

  lemma {:induction false} LastAgree(a: Look, b: Look, ms: seq<nat>, n: nat)
    requires n <= |ms| && Agree(a, b, LastVisible(a, ms, n).seen)
    ensures LastVisible(a, ms, n) == LastVisible(b, ms, n)
  {
    if n > 0 && AsTri(a(VisKey(Sym(ms[n - 1])))) == 0 { LastAgree(a, b, ms, n - 1); }
  }

  lemma ModeAgree(cfg: Config, u: User, w: User, a: Look, b: Look, c: nat)
    requires c < |cfg.choices| && Agree(a, b, ChoiceMode(cfg, u, a, c).seen)
    requires UsersAgree(u, w, a, ChoiceMode(cfg, u, a, c).seen)
    ensures ChoiceMode(cfg, u, a, c) == ChoiceMode(cfg, w, b, c)
  {
    assert VisKey(Cho(c)) in ChoiceMode(cfg, u, a, c).seen;
  }

  lemma DemotedAgree(cfg: Config, u: User, w: User, a: Look, b: Look, s: nat)
    requires s < |cfg.syms| && (cfg.syms[s].choice.Some? ==> cfg.syms[s].choice.value < |cfg.choices|)
    requires Agree(a, b, Demoted(cfg, u, a, s).seen) && UsersAgree(u, w, a, Demoted(cfg, u, a, s).seen)
    ensures Demoted(cfg, u, a, s) == Demoted(cfg, w, b, s)
  {
    if cfg.syms[s].choice.Some? {
      ModeAgree(cfg, u, w, a, b, cfg.syms[s].choice.value);
    }
  }

  lemma TriFreeAgree(cfg: Config, u: User, w: User, a: Look, b: Look, s: nat)
    requires s < |cfg.syms| && cfg.syms[s].choice.None?
    requires Agree(a, b, TriFree(cfg, u, a, s).seen) && UsersAgree(u, w, a, TriFree(cfg, u, a, s).seen)
    ensures TriFree(cfg, u, a, s) == TriFree(cfg, w, b, s)
  {
    var sym := cfg.syms[s];
    TriBaseAgree(cfg, u, w, a, b, s);
    ExprAgree(cfg, a, b, sym.revDep);
    var rev := Val(cfg, a, sym.revDep);
    var base := TriBase(cfg, u, a, s);
    var val := if rev != 0 then Max(rev, base.v) else base.v;
    if rev != 0 { ExprAgree(cfg, a, b, sym.directDep); }
    if val == 1 {
      if sym.origType.Tristate? { DemotedAgree(cfg, u, w, a, b, s); }
      if !IsBool(cfg, u, a, s).v { ExprAgree(cfg, a, b, sym.weakRevDep); }
    }
  }

  lemma TriBaseAgree(cfg: Config, u: User, w: User, a: Look, b: Look, s: nat)
    requires s < |cfg.syms|
    requires Agree(a, b, TriBase(cfg, u, a, s).seen) && UsersAgree(u, w, a, TriBase(cfg, u, a, s).seen)
    ensures TriBase(cfg, u, a, s) == TriBase(cfg, w, b, s)
  {
    var sym := cfg.syms[s];
    assert VisKey(Sym(s)) in TriBase(cfg, u, a, s).seen;
    if !(AsTri(a(VisKey(Sym(s)))) != 0 && s in u.symVal && u.symVal[s].UserTri?) {
      DefaultsAgree(cfg, a, b, sym.defaults, 0);
      ExprAgree(cfg, a, b, sym.weakRevDep);
      if Val(cfg, a, sym.weakRevDep) != 0 { ExprAgree(cfg, a, b, sym.directDep); }
    }
  }

  lemma SymVisAgree(cfg: Config, u: User, w: User, a: Look, b: Look, s: nat)
    requires s < |cfg.syms| && (cfg.syms[s].choice.Some? ==> cfg.syms[s].choice.value < |cfg.choices|)
    requires Agree(a, b, SymVis(cfg, u, a, s).seen) && UsersAgree(u, w, a, SymVis(cfg, u, a, s).seen)
    ensures SymVis(cfg, u, a, s) == SymVis(cfg, w, b, s)
  {
    PromptsAgree(cfg, a, b, cfg.syms[s].prompts, 0);
    if PromptsFrom(cfg, a, cfg.syms[s].prompts, 0).v == 1 && cfg.syms[s].origType.Tristate? {
      DemotedAgree(cfg, u, w, a, b, s);
    }
  }

  lemma SymStrAgree(cfg: Config, u: User, w: User, a: Look, b: Look, s: nat)
    requires s < |cfg.syms|
    requires !IsBoolTristate(cfg.syms[s].origType) ==> forall d | d in cfg.syms[s].defaults :: d.value.Leaf?
    requires Agree(a, b, SymStr(cfg, u, a, s).seen) && UsersAgree(u, w, a, SymStr(cfg, u, a, s).seen)
    ensures SymStr(cfg, u, a, s) == SymStr(cfg, w, b, s)
  {
    var sym := cfg.syms[s];
    if !IsBoolTristate(sym.origType) && !sym.origType.Unknown? {
      assert VisKey(Sym(s)) in SymStr(cfg, u, a, s).seen;
      var text := UserText(u, s);
      var vis := AsTri(a(VisKey(Sym(s)))) != 0;
      if !sym.origType.String? { RangesAgree(cfg, a, b, sym.ranges, Base(sym.origType), 0); }
      if !(vis && text.Some? && (sym.origType.String? || text.value != "")) {
        StrDefaultsAgree(cfg, a, b, sym.defaults, 0);
      }
    }
  }

  lemma SelectionAgree(cfg: Config, u: User, w: User, a: Look, b: Look, c: nat)
    requires c < |cfg.choices|
    requires Agree(a, b, Selection(cfg, u, a, c).seen) && UsersAgree(u, w, a, Selection(cfg, u, a, c).seen)
    ensures Selection(cfg, u, a, c) == Selection(cfg, w, b, c)
  {
    var ms := cfg.choices[c].syms;
    assert VisKey(Cho(c)) in Selection(cfg, u, a, c).seen;
    if !(c in u.choiceSel && AsTri(a(VisKey(Sym(u.choiceSel[c])))) != 0) {
      ChoiceDefaultsAgree(cfg, a, b, cfg.choices[c].defaults, 0);
      if ChoiceDefaultsFrom(cfg, a, cfg.choices[c].defaults, 0).v.None? { VisibleAgree(u, w, a, b, ms, false, 0); }
      var def := FromDefaults(cfg, u, a, c);
      assert def.seen <= Selection(cfg, u, a, c).seen;
      if !(def.v.Some? && !SetToNo(u, def.v.value)) {
        VisibleAgree(u, w, a, b, ms, true, 0);
        if VisibleFrom(u, a, ms, true, 0).v.None? { LastAgree(a, b, ms, |ms|); }
      }
    }
  }

  /** An evaluation gives the same, reading the same, wherever the values it read and the user's part of them agree. */
  lemma RunAgree(cfg: Config, u: User, w: User, a: Look, b: Look, k: Key)
    requires WellFormed(cfg) && ValidKey(cfg, k)
    requires Agree(a, b, Run(cfg, u, a, k).seen) && UsersAgree(u, w, a, Run(cfg, u, a, k).seen)
    ensures Run(cfg, u, a, k) == Run(cfg, w, b, k)
  {
    match k
    case VisKey(Sym(s)) => assert WellFormedSym(cfg, s); SymVisAgree(cfg, u, w, a, b, s);
    case VisKey(Cho(c)) => PromptsAgree(cfg, a, b, cfg.choices[c].prompts, 0);
    case TriKey(s) =>
      var sym := cfg.syms[s];
      if sym.constant.None? && IsBoolTristate(sym.origType) && sym.choice.None? { TriFreeAgree(cfg, u, w, a, b, s); }
    case StrKey(s) => assert WellFormedSym(cfg, s); SymStrAgree(cfg, u, w, a, b, s);
    case SelKey(c) => SelectionAgree(cfg, u, w, a, b, c);
  }

  // ---------------------------------------------------------------------------------------------
  // Evaluation from scratch

  ghost function Eval(cfg: Config, user: User, k: Key): Cached
    requires WellFormed(cfg) && ValidKey(cfg, k)
    decreases Rank(cfg, k)
  {
    Run(cfg, user, (r: Key) => if ValidKey(cfg, r) && Rank(cfg, r) < Rank(cfg, k) then Eval(cfg, user, r) else TriVal(0), k).v
  }

  ghost function Scratch(cfg: Config, user: User): Look
    requires WellFormed(cfg)
  {
    (r: Key) => if ValidKey(cfg, r) then Eval(cfg, user, r) else TriVal(0)
  }

  ghost function Seen(cfg: Config, user: User, k: Key): set<Key>
    requires WellFormed(cfg) && ValidKey(cfg, k)
  {
    Run(cfg, user, Scratch(cfg, user), k).seen
  }

  /** Evaluating from scratch is one evaluation over attributes evaluated from scratch. */
  lemma EvalUnfolds(cfg: Config, user: User, k: Key)
    requires WellFormed(cfg) && WellFormedUser(cfg, user) && ValidKey(cfg, k)
    ensures Eval(cfg, user, k) == Run(cfg, user, Scratch(cfg, user), k).v
  {
    var below := (r: Key) => if ValidKey(cfg, r) && Rank(cfg, r) < Rank(cfg, k) then Eval(cfg, user, r) else TriVal(0);
    RunReads(cfg, user, below, k);
    RunAgree(cfg, user, user, below, Scratch(cfg, user), k);
  }

  ghost predicate Closed(cfg: Config, user: User, ks: set<Key>)
    requires WellFormed(cfg)
  {
    && (forall k | k in ks :: ValidKey(cfg, k))
    && (forall k, r {:trigger Needs(cfg, user, k, r)} | k in ks && Needs(cfg, user, k, r) :: r in ks)
  }

  /** Evaluating k looks at r, and r is not the same at all times. */
  ghost predicate Needs(cfg: Config, user: User, k: Key, r: Key)
    requires WellFormed(cfg)
  {
    ValidKey(cfg, k) && r in Seen(cfg, user, k) && !Pinned(cfg, k, r)
  }

  lemma PromptlessInvisible(cfg: Config, user: User, s: nat)
    requires WellFormed(cfg) && WellFormedUser(cfg, user) && s < |cfg.syms| && cfg.syms[s].prompts == []
    ensures Scratch(cfg, user)(VisKey(Sym(s))) == TriVal(0)
  {
    EvalUnfolds(cfg, user, VisKey(Sym(s)));
  }

  /** One evaluation further: an attribute keeps its value if what it reads does. */
  lemma StepAgrees(cfg: Config, u: User, w: User, k: Key)
    requires WellFormed(cfg) && WellFormedUser(cfg, u) && WellFormedUser(cfg, w) && ValidKey(cfg, k)
    requires Agree(Scratch(cfg, u), Scratch(cfg, w), Seen(cfg, u, k)) && UsersAgree(u, w, Scratch(cfg, u), Seen(cfg, u, k))
    ensures Eval(cfg, u, k) == Eval(cfg, w, k) && Seen(cfg, u, k) == Seen(cfg, w, k)
  {
    hide WellFormed, Run, Eval;
    RunAgree(cfg, u, w, Scratch(cfg, u), Scratch(cfg, w), k);
    EvalUnfolds(cfg, u, k);
    EvalUnfolds(cfg, w, k);
  }

  ghost predicate Anchors(cfg: Config, u: User, w: User, ks: set<Key>, fixed: set<Key>)
    requires WellFormed(cfg)
  {
    && (forall k | k in ks :: ValidKey(cfg, k))
    && (forall k | k in ks && k in fixed :: Scratch(cfg, u)(k) == Scratch(cfg, w)(k))
    && (forall k, r {:trigger Needs(cfg, u, k, r)} | k in ks && k !in fixed && Needs(cfg, u, k, r) :: r in ks)
    && UsersAgree(u, w, Scratch(cfg, u), ks)
  }

  lemma ReadRanks(cfg: Config, user: User, k: Key, r: Key)
    requires WellFormed(cfg) && WellFormedUser(cfg, user) && ValidKey(cfg, k) && r in Seen(cfg, user, k)
    ensures ValidKey(cfg, r) && Rank(cfg, r) < Rank(cfg, k)
  {
    hide WellFormed, Run, Rank;
    RunReads(cfg, user, Scratch(cfg, user), k);
    assert MayRead(cfg, k, r);
  }

  lemma ScratchIs(cfg: Config, user: User, k: Key)
    requires WellFormed(cfg) && ValidKey(cfg, k)
    ensures Scratch(cfg, user)(k) == Eval(cfg, user, k)
  {
  }

  /** Attributes keep their values when the input changes elsewhere, as far as they need only such as do. */
  lemma {:induction false} Anchored(cfg: Config, u: User, w: User, ks: set<Key>, fixed: set<Key>, k: Key)
    requires WellFormed(cfg) && WellFormedUser(cfg, u) && WellFormedUser(cfg, w)
    requires Anchors(cfg, u, w, ks, fixed) && k in ks && ValidKey(cfg, k)
    ensures Scratch(cfg, u)(k) == Scratch(cfg, w)(k) && (k !in fixed ==> Seen(cfg, u, k) == Seen(cfg, w, k))
    decreases Rank(cfg, k)
  {
    hide WellFormed, Run, Rank, Eval, Scratch, Seen, SameAt;
    if k !in fixed {
      forall r | r in Seen(cfg, u, k)
        ensures Scratch(cfg, u)(r) == Scratch(cfg, w)(r) && (r in ks || (Pinned(cfg, k, r) && Scratch(cfg, u)(r) == TriVal(0)))
      {
        ReadRanks(cfg, u, k, r);
        if Pinned(cfg, k, r) {
          PromptlessInvisible(cfg, u, r.item.id);
          PromptlessInvisible(cfg, w, r.item.id);
        } else {
          assert Needs(cfg, u, k, r);
          Anchored(cfg, u, w, ks, fixed, r);
        }
      }
      StepAgrees(cfg, u, w, k);
      ScratchIs(cfg, u, k);
      ScratchIs(cfg, w, k);
    }
  }

  /** A closed set of attributes keeps its values when the user's input changes elsewhere. */
  lemma Unaffected(cfg: Config, u: User, w: User, ks: set<Key>, k: Key)
    requires WellFormed(cfg) && WellFormedUser(cfg, u) && WellFormedUser(cfg, w)
    requires Closed(cfg, u, ks) && UsersAgree(u, w, Scratch(cfg, u), ks)
    requires k in ks && ValidKey(cfg, k)
    ensures Eval(cfg, u, k) == Eval(cfg, w, k) && Seen(cfg, u, k) == Seen(cfg, w, k)
  {
    hide WellFormed, Run, Eval, Seen, Scratch, UsersAgree;
    Anchored(cfg, u, w, ks, {}, k);
    ScratchIs(cfg, u, k);
    ScratchIs(cfg, w, k);
  }

  /** Anything but a visibility that reads another item also reads the visibility of its own: the invalidation's flag. */
  lemma VisibilityFlag(cfg: Config, user: User, look: Look, k: Key, r: Key)
    requires WellFormed(cfg) && ValidKey(cfg, k)
    requires r in Run(cfg, user, look, k).seen && ItemOf(r) != ItemOf(k)
    ensures k.VisKey? || VisKey(ItemOf(k)) in Run(cfg, user, look, k).seen
  {
    if k.StrKey? { assert WellFormedSym(cfg, k.sym); }
  }

  lemma OutsideReads(cfg: Config, user: User, look: Look, k: Key, r: Key)
    requires WellFormed(cfg) && WellFormedUser(cfg, user) && ValidKey(cfg, k) && ItemOf(k) !in Items(cfg)
    requires r in Run(cfg, user, look, k).seen
    ensures ItemOf(r) == ItemOf(k)
  {
    match ItemOf(k)
    case Sym(s) => assert WellFormedSym(cfg, s);
    case Cho(c) =>
  }
}
