/** The cached attributes of a configuration: lazy reads, assignments and their pruned invalidation. */
module KconfigCache {
  import opened KconfigExpr
  import opened Wrappers
  import opened KconfigEval

  // ---------------------------------------------------------------------------------------------
  // The cache

  /** Every cached attribute is what evaluation from scratch gives, and what it was computed from is cached too. */
  ghost predicate Consistent(cfg: Config, user: User, cache: map<Key, Cached>)
    requires WellFormed(cfg)
  {
    && Closed(cfg, user, cache.Keys)
    && (forall k | k in cache :: ValidKey(cfg, k))
    && (forall k {:trigger Eval(cfg, user, k)} | k in cache :: cache[k] == Eval(cfg, user, k))
  }

  /** Nothing is left of item j, nor of anything that may have been computed from it. */
  ghost predicate Swept(cfg: Config, cache: map<Key, Cached>, j: Item)
  {
    && ValidItem(cfg, j)
    && (forall k | k in cache :: ItemOf(k) != j)
    && (forall i | i in Dependents(cfg, j) :: VisKey(i) !in cache)
    && (j == Sym(cfg.modules) ==> forall k | k in cache :: ItemOf(k) !in Items(cfg))
  }

  ghost predicate SubMap(a: map<Key, Cached>, b: map<Key, Cached>)
  {
    forall k | k in a :: k in b && a[k] == b[k]
  }

  /** Whatever an invalidation removed, it removed with all that hangs on it. */
  ghost predicate Pruned(cfg: Config, before: map<Key, Cached>, after: map<Key, Cached>)
  {
    && SubMap(after, before)
    && forall k | k in before && k !in after :: ItemOf(k) in Items(cfg) && Swept(cfg, after, ItemOf(k))
  }

  /** The selection of c looks at a stray default of it, which is not going to take it along when it is invalidated. */
  ghost predicate StrayRead(cfg: Config, user: User, c: nat, r: Key)
    requires WellFormed(cfg)
  {
    c < |cfg.choices| && Needs(cfg, user, SelKey(c), r) && ItemOf(r).Sym? && Stray(cfg, c, ItemOf(r).id)
  }

  /** A cached selection that has lost such a default. */
  ghost predicate Loses(cfg: Config, user: User, cache: map<Key, Cached>, k: Key)
    requires WellFormed(cfg)
  {
    k in cache && k.SelKey? && exists r :: StrayRead(cfg, user, k.choice, r) && r !in cache
  }

  /**
   * Stopping at items without a cached visibility keeps a cache consistent, if and only if no selection that stays has lost
   * a stray default.
   */
  lemma PruningSuffices(cfg: Config, user: User, before: map<Key, Cached>, after: map<Key, Cached>)
    requires WellFormed(cfg) && WellFormedUser(cfg, user)
    requires Consistent(cfg, user, before) && Pruned(cfg, before, after)
    ensures Consistent(cfg, user, after) <==> forall k :: !Loses(cfg, user, after, k)
  {
    hide WellFormed, Stray, Pinned, Swept;
    if forall k :: !Loses(cfg, user, after, k) {
      forall k, r | k in after && Needs(cfg, user, k, r) ensures r in after {
        assert !Loses(cfg, user, after, k);
        ReadKept(cfg, user, before, after, k, r);
      }
    }
  }

  lemma ReadKept(cfg: Config, user: User, before: map<Key, Cached>, after: map<Key, Cached>, k: Key, r: Key)
    requires WellFormed(cfg) && WellFormedUser(cfg, user)
    requires Closed(cfg, user, before.Keys) && Pruned(cfg, before, after)
    requires k in after && Needs(cfg, user, k, r) && !Loses(cfg, user, after, k)
    ensures r in after
  {
    assert k in before && r in before;
    RunReads(cfg, user, Scratch(cfg, user), k);
    if ItemOf(r) != ItemOf(k) {
      VisibilityFlag(cfg, user, Scratch(cfg, user), k, r);
      assert k.VisKey? || Needs(cfg, user, k, VisKey(ItemOf(k)));
      if ItemOf(k) !in Items(cfg) { OutsideReads(cfg, user, Scratch(cfg, user), k, r); }
    }
    if !(k.SelKey? && StrayRead(cfg, user, k.choice, r)) {
      KeptStep(cfg, before, after, k, r);
    }
  }

  lemma KeptStep(cfg: Config, before: map<Key, Cached>, after: map<Key, Cached>, k: Key, r: Key)
    requires WellFormed(cfg) && Pruned(cfg, before, after)
    requires k in after && ValidKey(cfg, k) && r in before && MayRead(cfg, k, r) && !Pinned(cfg, k, r)
    requires !(k.SelKey? && ItemOf(r).Sym? && Stray(cfg, k.choice, ItemOf(r).id))
    requires ItemOf(r) == ItemOf(k) || (ItemOf(k) in Items(cfg) && (k.VisKey? || VisKey(ItemOf(k)) in before))
    ensures r in after
  {
    var flag := VisKey(ItemOf(k));
    if ItemOf(r).Sym? { assert WellFormedSym(cfg, ItemOf(r).id); }
    assert r !in after ==> ItemOf(r) in Items(cfg) && Swept(cfg, after, ItemOf(r));
    assert flag in before && flag !in after ==> Swept(cfg, after, ItemOf(flag));
  }

  /** With the changed items swept, what is left also holds for the new input. */
  lemma Rebased(cfg: Config, u: User, w: User, cache: map<Key, Cached>)
    requires WellFormed(cfg) && WellFormedUser(cfg, u) && WellFormedUser(cfg, w)
    requires Consistent(cfg, u, cache)
    requires UsersAgree(u, w, Scratch(cfg, u), cache.Keys)
    ensures Consistent(cfg, w, cache)
  {
    hide WellFormed, Eval, Seen, Scratch, UsersAgree;
    forall k | k in cache ensures ValidKey(cfg, k) && cache[k] == Eval(cfg, w, k) && Seen(cfg, u, k) == Seen(cfg, w, k) {
      Unaffected(cfg, u, w, cache.Keys, k);
      assert cache[k] == Eval(cfg, u, k);
    }
    forall k, r | k in cache && Needs(cfg, w, k, r) ensures r in cache { assert Needs(cfg, u, k, r); }
  }

  lemma DependentsAreItems(cfg: Config, j: Item)
    requires WellFormed(cfg) && ValidItem(cfg, j)
    ensures Dependents(cfg, j) <= Items(cfg)
  {
    if j.Cho? { assert WellFormedChoice(cfg, j.id); }
  }

  /** What is left without these items. */
  function Without(cache: map<Key, Cached>, gone: set<Item>): (left: map<Key, Cached>)
  {
    map k | k in cache && ItemOf(k) !in gone :: cache[k]
  }

  lemma WithoutBoth(cache: map<Key, Cached>, gone: set<Item>, i: Item)
    ensures Without(Without(cache, gone), {i}) == Without(cache, gone + {i})
  {
  }

  lemma WithoutNone(cache: map<Key, Cached>)
    ensures Without(cache, {}) == cache
  {
  }

  lemma AllSwept(cfg: Config, before: map<Key, Cached>, after: map<Key, Cached>)
    requires WellFormed(cfg) && after == Without(before, Items(cfg))
    ensures Pruned(cfg, before, after) && forall j | j in Items(cfg) :: Swept(cfg, after, j)
  {
    ItemsAreValid(cfg);
    forall j | j in Items(cfg) ensures Swept(cfg, after, j) { DependentsAreItems(cfg, j); }
  }

  /** Each item depends on the one before it, and the invalidation goes on to it because its visibility is cached. */
  ghost predicate Chain(cfg: Config, cache: map<Key, Cached>, p: seq<Item>)
  {
    && |p| > 0 && (forall n | 0 <= n < |p| :: ValidItem(cfg, p[n]))
    && forall n | 0 < n < |p| :: p[n] in Dependents(cfg, p[n - 1]) && VisKey(p[n]) in cache
  }

  ghost predicate Reach(cfg: Config, cache: map<Key, Cached>, x: Item, i: Item)
  {
    exists p :: Chain(cfg, cache, p) && p[0] == x && p[|p| - 1] == i
  }

  /** What an invalidation of x takes along: whatever it gets to, or all there is if it gets to MODULES. */
  ghost predicate Gone(cfg: Config, cache: map<Key, Cached>, x: Item, i: Item)
  {
    Reach(cfg, cache, x, i) || (i in Items(cfg) && Reach(cfg, cache, x, Sym(cfg.modules)))
  }

  ghost predicate OnlyGone(cfg: Config, before: map<Key, Cached>, after: map<Key, Cached>, x: Item)
  {
    forall k | k in before && k !in after :: Gone(cfg, before, x, ItemOf(k))
  }

  /** The invalidation of x removes all of what it takes along, and nothing else. */
  ghost predicate RemovesGone(cfg: Config, before: map<Key, Cached>, after: map<Key, Cached>, x: Item)
  {
    forall k | k in before :: k in after <==> !Gone(cfg, before, x, ItemOf(k))
  }

  lemma ReachSelf(cfg: Config, cache: map<Key, Cached>, x: Item)
    requires ValidItem(cfg, x)
    ensures Reach(cfg, cache, x, x)
  {
    assert Chain(cfg, cache, [x]) && [x][0] == x;
  }

  lemma ReachFurther(cfg: Config, mid: map<Key, Cached>, before: map<Key, Cached>, x: Item, item: Item, i: Item)
    requires ValidItem(cfg, x) && SubMap(mid, before) && item in Dependents(cfg, x) && VisKey(item) in mid
    ensures Reach(cfg, mid, item, i) ==> Reach(cfg, before, x, i)
  {
    hide Dependents, ValidItem;
    if p :| Chain(cfg, mid, p) && p[0] == item && p[|p| - 1] == i {
      var q := [x] + p;
      forall n | 0 < n < |q| ensures q[n] in Dependents(cfg, q[n - 1]) && VisKey(q[n]) in before {
        assert n > 1 ==> p[n - 1] in Dependents(cfg, p[n - 2]) && VisKey(p[n - 1]) in mid;
      }
      assert Chain(cfg, before, q) && q[0] == x && q[|q| - 1] == i;
    }
  }

  lemma OnlyGoneOn(cfg: Config, before: map<Key, Cached>, mid: map<Key, Cached>, now: map<Key, Cached>, x: Item, item: Item)
    requires ValidItem(cfg, x) && SubMap(mid, before) && item in Dependents(cfg, x) && VisKey(item) in mid
    requires OnlyGone(cfg, before, mid, x) && OnlyGone(cfg, mid, now, item)
    ensures OnlyGone(cfg, before, now, x)
  {
    hide Reach, Dependents, Items;
    forall k | k in before && k !in now ensures Gone(cfg, before, x, ItemOf(k)) {
      if k in mid {
        ReachFurther(cfg, mid, before, x, item, ItemOf(k));
        ReachFurther(cfg, mid, before, x, item, Sym(cfg.modules));
      }
    }
  }

  lemma {:induction false} ChainSwept(cfg: Config, before: map<Key, Cached>, after: map<Key, Cached>, p: seq<Item>, n: nat)
    requires Chain(cfg, before, p) && n < |p| && Pruned(cfg, before, after) && Swept(cfg, after, p[0])
    ensures Swept(cfg, after, p[n])
  {
    hide Dependents, Items, ValidItem, Pruned, Swept;
    if n > 0 {
      ChainSwept(cfg, before, after, p, n - 1);
      NextSwept(cfg, before, after, p[n - 1], p[n]);
    }
  }

  lemma NextSwept(cfg: Config, before: map<Key, Cached>, after: map<Key, Cached>, j: Item, i: Item)
    requires Pruned(cfg, before, after) && Swept(cfg, after, j) && i in Dependents(cfg, j) && VisKey(i) in before
    ensures Swept(cfg, after, i)
  {
    hide Dependents, Items;
    assert ItemOf(VisKey(i)) == i && VisKey(i) !in after;
  }

  lemma ReachSwept(cfg: Config, before: map<Key, Cached>, after: map<Key, Cached>, x: Item, i: Item)
    requires Pruned(cfg, before, after) && Swept(cfg, after, x) && Reach(cfg, before, x, i)
    ensures Swept(cfg, after, i)
  {
    hide Pruned, Swept;
    var p :| Chain(cfg, before, p) && p[0] == x && p[|p| - 1] == i;
    ChainSwept(cfg, before, after, p, |p| - 1);
  }

  lemma GoneExactly(cfg: Config, before: map<Key, Cached>, after: map<Key, Cached>, x: Item)
    requires Pruned(cfg, before, after) && Swept(cfg, after, x) && OnlyGone(cfg, before, after, x)
    ensures RemovesGone(cfg, before, after, x)
  {
    hide Reach, Dependents, Items;
    forall k | k in before && Gone(cfg, before, x, ItemOf(k)) ensures k !in after {
      if Reach(cfg, before, x, ItemOf(k)) {
        ReachSwept(cfg, before, after, x, ItemOf(k));
      } else {
        ReachSwept(cfg, before, after, x, Sym(cfg.modules));
      }
    }
  }

  lemma RemovedOnly(cfg: Config, before: map<Key, Cached>, after: map<Key, Cached>, x: Item)
    requires RemovesGone(cfg, before, after, x)
    ensures OnlyGone(cfg, before, after, x)
  {
    hide Gone;
  }

  lemma AllGone(cfg: Config, before: map<Key, Cached>)
    requires cfg.modules < |cfg.syms|
    ensures OnlyGone(cfg, before, Without(before, Items(cfg)), Sym(cfg.modules))
  {
    ReachSelf(cfg, before, Sym(cfg.modules));
    hide Reach, Items;
  }

  lemma OneGone(cfg: Config, before: map<Key, Cached>, x: Item)
    requires ValidItem(cfg, x)
    ensures OnlyGone(cfg, before, Without(before, {x}), x)
  {
    ReachSelf(cfg, before, x);
    hide Reach, Items;
  }

  /** An invalidation of x under way: it is done with x itself and with all its dependents but these. */
  ghost predicate Sweeping(cfg: Config, before: map<Key, Cached>, now: map<Key, Cached>, x: Item, todo: set<Item>)
    requires ValidItem(cfg, x)
  {
    && SubMap(now, before)
    && (forall k | k in now :: ItemOf(k) != x)
    && (forall k | k in before && k !in now :: ItemOf(k) in Items(cfg) && (ItemOf(k) == x || Swept(cfg, now, ItemOf(k))))
    && (forall i | i in Dependents(cfg, x) && i !in todo :: VisKey(i) !in now)
  }

  lemma SweepBegins(cfg: Config, before: map<Key, Cached>, x: Item)
    requires ValidItem(cfg, x) && x in Items(cfg)
    ensures Sweeping(cfg, before, Without(before, {x}), x, Dependents(cfg, x))
  {
  }

  lemma SweepOn(cfg: Config, before: map<Key, Cached>, mid: map<Key, Cached>, now: map<Key, Cached>, x: Item, todo: set<Item>, item: Item)
    requires ValidItem(cfg, x) && Sweeping(cfg, before, mid, x, todo + {item})
    requires (Pruned(cfg, mid, now) && Swept(cfg, now, item)) || (now == mid && VisKey(item) !in mid)
    ensures Sweeping(cfg, before, now, x, todo)
  {
    forall k | k in before && k !in now ensures ItemOf(k) in Items(cfg) && (ItemOf(k) == x || Swept(cfg, now, ItemOf(k))) {
      assert k !in mid ==> ItemOf(k) in Items(cfg) && (ItemOf(k) == x || Swept(cfg, mid, ItemOf(k)));
    }
  }

  lemma SweepDone(cfg: Config, before: map<Key, Cached>, now: map<Key, Cached>, x: Item)
    requires ValidItem(cfg, x) && Sweeping(cfg, before, now, x, {}) && x != Sym(cfg.modules)
    ensures Pruned(cfg, before, now) && Swept(cfg, now, x)
  {
  }

  lemma ItemsAreValid(cfg: Config)
    ensures forall i | i in Items(cfg) :: ValidItem(cfg, i)
  {
  }

  ghost predicate Dep(d: map<Item, set<Item>>, j: Item, i: Item) { j in d && i in d[j] }

  /** Between d and e, each symbol of xs that is not a constant has got the item as a dependent. */
  ghost predicate Registered(cfg: Config, d: map<Item, set<Item>>, e: map<Item, set<Item>>, item: Item, xs: set<nat>)
  {
    && d.Keys == e.Keys
    && forall j, i :: Dep(e, j, i) <==> Dep(d, j, i) || (i == item && j in d && Registrable(cfg, j) && j.id in xs)
  }

  ghost predicate Registrable(cfg: Config, j: Item) { j.Sym? && j.id < |cfg.syms| && !cfg.syms[j.id].isConstant }

  /** i is a member of the choice j. */
  ghost predicate MemberPair(cfg: Config, j: Item, i: Item)
  {
    j.Cho? && j.id < |cfg.choices| && i.Sym? && i.id in cfg.choices[j.id].syms
  }

  lemma DependentsOf(cfg: Config, j: Item)
    requires WellFormed(cfg) && ValidItem(cfg, j)
    ensures forall i :: i in Dependents(cfg, j) <==>
              || (Registrable(cfg, j) && i in Items(cfg) && ValidItem(cfg, i) && Mentions(cfg, i, j.id))
              || MemberPair(cfg, j, i) || MemberPair(cfg, i, j)
  {
  }

  function LeavesOf(es: seq<Expr>): set<nat>
  {
    if es == [] then {} else LeavesOf(es[..|es| - 1]) + Leaves(es[|es| - 1])
  }

  lemma {:induction false} LeavesListed(es: seq<Expr>, x: nat)
    ensures x in LeavesOf(es) <==> exists e | e in es :: x in Leaves(e)
  {
    if es != [] {
      var init, last := es[..|es| - 1], es[|es| - 1];
      assert es == init + [last];
      LeavesListed(init, x);
      assert x in Leaves(last) ==> last in es && x in Leaves(last);
      forall e | e in init && x in Leaves(e) ensures e in es {}
    }
  }

  lemma SmallerMap(a: map<Key, Cached>, b: map<Key, Cached>, gone: Key)
    requires SubMap(a, b) && gone !in a
    ensures |a| + (if gone in b then 1 else 0) <= |b|
  {
    assert a.Keys <= b.Keys - {gone};
    SubsetSize(a.Keys, b.Keys - {gone});
    assert |a| == |a.Keys| && |b| == |b.Keys|;
  }

  lemma StillSmaller(cfg: Config, before: map<Key, Cached>, now: map<Key, Cached>, x: Item, todo: set<Item>)
    requires ValidItem(cfg, x) && Sweeping(cfg, before, now, x, todo)
    ensures |now| + (if VisKey(x) in before then 1 else 0) <= |before| && SubMap(now, before)
  {
    SmallerMap(now, before, VisKey(x));
  }

  lemma {:induction false} SubsetSize<T>(a: set<T>, b: set<T>)
    requires a <= b
    ensures |a| <= |b|
  {
    if x :| x in a { SubsetSize(a - {x}, b - {x}); }
  }

  // What the reads rely on, with what a fixed evaluation gives for each attribute as a parameter.

  ghost predicate Solved(cfg: Config, user: User, look: Look, k: Key)
    requires WellFormed(cfg) && ValidKey(cfg, k)
  {
    look(k) == Run(cfg, user, look, k).v
  }

  ghost predicate Supported(cfg: Config, user: User, look: Look, ks: set<Key>, k: Key)
    requires WellFormed(cfg) && ValidKey(cfg, k)
  {
    forall r | r in Run(cfg, user, look, k).seen :: r in ks || Pinned(cfg, k, r)
  }

  ghost predicate Ready(cfg: Config, user: User, look: Look, cache: map<Key, Cached>)
  {
    && WellFormed(cfg)
    && WellFormedUser(cfg, user)
    && (forall k {:trigger Solved(cfg, user, look, k)} | ValidKey(cfg, k) :: Solved(cfg, user, look, k))
    && (forall k | k in cache :: ValidKey(cfg, k) && cache[k] == look(k))
    && (forall k {:trigger Supported(cfg, user, look, cache.Keys, k)} | k in cache :: Supported(cfg, user, look, cache.Keys, k))
  }

  lemma ConsistentIsReady(cfg: Config, user: User, cache: map<Key, Cached>)
    requires WellFormed(cfg) && WellFormedUser(cfg, user) && Consistent(cfg, user, cache)
    ensures Ready(cfg, user, Scratch(cfg, user), cache)
  {
    var look := Scratch(cfg, user);
    forall k | ValidKey(cfg, k) ensures Solved(cfg, user, look, k) { EvalUnfolds(cfg, user, k); }
    forall k | k in cache ensures cache[k] == look(k) { assert cache[k] == Eval(cfg, user, k); }
    forall k | k in cache ensures Supported(cfg, user, look, cache.Keys, k) {
      assert forall r | r in Seen(cfg, user, k) && !Pinned(cfg, k, r) :: Needs(cfg, user, k, r);
    }
  }

  lemma ReadyIsConsistent(cfg: Config, user: User, cache: map<Key, Cached>)
    requires WellFormed(cfg) && Ready(cfg, user, Scratch(cfg, user), cache)
    ensures Consistent(cfg, user, cache)
  {
    var look := Scratch(cfg, user);
    forall k | k in cache ensures cache[k] == Eval(cfg, user, k) { assert cache[k] == look(k); }
    forall k, r | k in cache && Needs(cfg, user, k, r) ensures r in cache { assert Supported(cfg, user, look, cache.Keys, k); }
  }

  lemma Grow(cfg: Config, user: User, look: Look, cache: map<Key, Cached>, k: Key)
    requires Ready(cfg, user, look, cache)
    requires ValidKey(cfg, k) && Supported(cfg, user, look, cache.Keys, k)
    ensures Ready(cfg, user, look, cache[k := look(k)])
  {
    var grown := cache[k := look(k)];
    assert cache.Keys <= grown.Keys;
    forall r | r in grown ensures Supported(cfg, user, look, grown.Keys, r) {
      assert Supported(cfg, user, look, cache.Keys, r);
    }
  }

  /** The symbols whose attributes all rank below the bound. */
  ghost function LowSyms(cfg: Config, bound: nat): set<nat>
    requires WellFormed(cfg)
  {
    set x | 0 <= x < |cfg.syms| && Rank(cfg, StrKey(x)) < bound
  }

  // What assignments do to the user's input

  /** n, m and y may be given as text. */
  function Normal(cfg: Config, s: nat, v: UserValue): UserValue
    requires s < |cfg.syms|
  {
    if !IsBoolTristate(cfg.syms[s].origType) then v
    else if v == UserStr("n") then UserTri(0)
    else if v == UserStr("m") then UserTri(1)
    else if v == UserStr("y") then UserTri(2)
    else v
  }

  predicate Acceptable(cfg: Config, s: nat, v: UserValue)
    requires s < |cfg.syms|
  {
    match cfg.syms[s].origType
    case Bool => v == UserTri(0) || v == UserTri(2)
    case Tristate => v.UserTri?
    case String => v.UserStr?
    case Int => v.UserStr? && cfg.parse(v.str, 10).Some?
    case Hex => v.UserStr? && cfg.parse(v.str, 16).Some? && cfg.parse(v.str, 16).value >= 0
    case Unknown => false
  }

  /** Setting the same value again is skipped, but not for choice symbols. */
  predicate Unchanged(cfg: Config, user: User, s: nat, v: UserValue)
    requires s < |cfg.syms|
  {
    s in user.symVal && user.symVal[s] == v && cfg.syms[s].choice.None?
  }

  function AfterSet(cfg: Config, user: User, s: nat, value: UserValue): User
    requires s < |cfg.syms|
  {
    var v := Normal(cfg, s, value);
    if Unchanged(cfg, user, s, v) || !Acceptable(cfg, s, v) then user
    else if cfg.syms[s].choice.Some? && v == UserTri(2) then
      user.(symVal := user.symVal[s := v], choiceSel := user.choiceSel[cfg.syms[s].choice.value := s])
    else user.(symVal := user.symVal[s := v])
  }

  predicate AcceptableMode(cfg: Config, c: nat, v: Tri)
    requires c < |cfg.choices|
  {
    cfg.choices[c].origType.Tristate? || (cfg.choices[c].origType.Bool? && v != 1)
  }

  predicate SameMode(user: User, c: nat, v: Tri) { c in user.choiceVal && user.choiceVal[c] == v }

  function AfterSetChoice(cfg: Config, user: User, c: nat, v: Tri): User
    requires c < |cfg.choices|
  {
    if AcceptableMode(cfg, c, v) then user.(choiceVal := user.choiceVal[c := v]) else user
  }

  datatype Op =
    | SetSym(s: nat, value: UserValue)
    | UnsetSym(s: nat)
    | SetMode(c: nat, mode: Tri)
    | UnsetMode(c: nat)
    | Read(key: Key)

  predicate ValidOp(cfg: Config, op: Op)
  {
    match op
    case SetSym(s, _) => s < |cfg.syms|
    case UnsetSym(s) => s < |cfg.syms|
    case SetMode(c, _) => c < |cfg.choices|
    case UnsetMode(c) => c < |cfg.choices|
    case Read(k) => ValidKey(cfg, k)
  }

  function Apply(cfg: Config, user: User, op: Op): User
    requires ValidOp(cfg, op)
  {
    match op
    case SetSym(s, v) => AfterSet(cfg, user, s, v)
    case UnsetSym(s) => user.(symVal := user.symVal - {s})
    case SetMode(c, v) => AfterSetChoice(cfg, user, c, v)
    case UnsetMode(c) => user.(choiceVal := user.choiceVal - {c}, choiceSel := user.choiceSel - {c})
    case Read(_) => user
  }

  function UserAfter(cfg: Config, user: User, ops: seq<Op>): User
    requires forall op | op in ops :: ValidOp(cfg, op)
  {
    if ops == [] then user
    else
      var n := |ops| - 1;
      assert ops[n] in ops;
      Apply(cfg, UserAfter(cfg, user, ops[..n]), ops[n])
  }

  /** The answers of the reads among ops, each evaluated from scratch on the input of that moment. */
  ghost function AnswersFor(cfg: Config, user: User, ops: seq<Op>): seq<Cached>
    requires WellFormed(cfg) && forall op | op in ops :: ValidOp(cfg, op)
  {
    if ops == [] then []
    else
      var n := |ops| - 1;
      assert ops[n] in ops && ValidOp(cfg, ops[n]);
      AnswersFor(cfg, user, ops[..n]) +
      if ops[n].Read? then [Eval(cfg, UserAfter(cfg, user, ops[..n]), ops[n].key)] else []
  }

  // What assignments do to the cache

  /** The item an operation invalidates, if any. */
  function Target(cfg: Config, user: User, op: Op): Option<Item>
    requires WellFormed(cfg) && ValidOp(cfg, op)
  {
    match op
    case SetSym(s, value) =>
      var v := Normal(cfg, s, value);
      if Unchanged(cfg, user, s, v) || !Acceptable(cfg, s, v) then None
      else if cfg.syms[s].choice.Some? && v == UserTri(2) then Some(Cho(cfg.syms[s].choice.value))
      else Prompted(cfg, s)
    case UnsetSym(s) => if s in user.symVal then Prompted(cfg, s) else None
    case SetMode(c, v) => if SameMode(user, c, v) || !AcceptableMode(cfg, c, v) then None else Some(Cho(c))
    case UnsetMode(c) => if c in user.choiceVal || c in user.choiceSel then Some(Cho(c)) else None
    case Read(_) => None
  }

  /** A symbol without a prompt stays cached, as what the user gives it is never looked at. */
  function Prompted(cfg: Config, s: nat): Option<Item>
    requires s < |cfg.syms|
  {
    if cfg.syms[s].prompts == [] then None else Some(Sym(s))
  }

  ghost predicate Cleared(cfg: Config, before: map<Key, Cached>, after: map<Key, Cached>, target: Option<Item>)
  {
    && Pruned(cfg, before, after)
    && if target.None? then after == before else Swept(cfg, after, target.value) && RemovesGone(cfg, before, after, target.value)
  }

  /** No selection that stays cached loses a stray default it was computed from. */
  ghost predicate StraySafe(cfg: Config, user: User, cache: map<Key, Cached>, target: Option<Item>)
    requires WellFormed(cfg)
  {
    target.Some? ==>
      forall c, r | SelKey(c) in cache && StrayRead(cfg, user, c, r) && Gone(cfg, cache, target.value, ItemOf(r)) ::
        Gone(cfg, cache, target.value, Cho(c))
  }

  ghost predicate AllRight(cfg: Config, user: User, cache: map<Key, Cached>)
    requires WellFormed(cfg)
  {
    forall k | k in cache :: ValidKey(cfg, k) && cache[k] == Eval(cfg, user, k)
  }

  /** The selections that stay cached and lose a stray default are the same before and after. */
  ghost predicate StillRight(cfg: Config, u: User, w: User, cache: map<Key, Cached>, target: Option<Item>)
    requires WellFormed(cfg)
  {
    target.Some? ==>
      forall c, r | SelKey(c) in cache && StrayRead(cfg, u, c, r)
                    && Gone(cfg, cache, target.value, ItemOf(r)) && !Gone(cfg, cache, target.value, Cho(c)) ::
        Eval(cfg, u, SelKey(c)) == Eval(cfg, w, SelKey(c))
  }

  ghost predicate SafeIn(cfg: Config, user: User, cache: map<Key, Cached>, op: Op)
    requires WellFormed(cfg) && ValidOp(cfg, op)
  {
    StraySafe(cfg, user, cache, Target(cfg, user, op))
  }

  /** ... whatever has been read before. */
  ghost predicate SafeOp(cfg: Config, user: User, op: Op)
    requires WellFormed(cfg) && ValidOp(cfg, op)
  {
    forall cache | Consistent(cfg, user, cache) :: SafeIn(cfg, user, cache, op)
  }

  ghost predicate SafeRun(cfg: Config, user: User, ops: seq<Op>)
    requires WellFormed(cfg) && forall op | op in ops :: ValidOp(cfg, op)
  {
    if ops == [] then true
    else
      var n := |ops| - 1;
      assert ops[n] in ops && ValidOp(cfg, ops[n]);
      SafeRun(cfg, user, ops[..n]) && SafeOp(cfg, UserAfter(cfg, user, ops[..n]), ops[n])
  }

  /** So it is with anything, where there is no stray default. */
  lemma {:induction false} CoveredIsSafe(cfg: Config, user: User, ops: seq<Op>)
    requires WellFormed(cfg) && Covered(cfg) && forall op | op in ops :: ValidOp(cfg, op)
    ensures SafeRun(cfg, user, ops)
  {
    hide WellFormed, Stray, Consistent, Gone;
    if ops != [] {
      assert forall c, x: nat | 0 <= c < |cfg.choices| :: !Stray(cfg, c, x);
      CoveredIsSafe(cfg, user, ops[..|ops| - 1]);
    }
  }

  /** A selection that has lost a stray default, or anything computed from one. */
  ghost predicate Tainted(cfg: Config, user: User, cache: map<Key, Cached>, k: Key)
    requires WellFormed(cfg) && ValidKey(cfg, k)
    decreases Rank(cfg, k)
  {
    || Loses(cfg, user, cache, k)
    || exists r | Needs(cfg, user, k, r) && r in cache :: ValidKey(cfg, r) && Rank(cfg, r) < Rank(cfg, k) && Tainted(cfg, user, cache, r)
  }

  /** Only what is tainted can be stale, and nothing is unless a selection is that has lost a stray default. */
  ghost predicate StaleFrom(cfg: Config, u: User, w: User, cache: map<Key, Cached>)
    requires WellFormed(cfg)
  {
    && (forall k | k in cache :: ValidKey(cfg, k))
    && (forall k | k in cache && !Tainted(cfg, u, cache, k) :: cache[k] == Eval(cfg, w, k))
    && ((forall k | k in cache && Loses(cfg, u, cache, k) :: cache[k] == Eval(cfg, w, k)) ==>
          forall k | k in cache :: cache[k] == Eval(cfg, w, k))
  }

  /** The users' inputs differ only at items that are not cached or have no prompt. */
  ghost predicate Elsewhere(cfg: Config, u: User, w: User, cache: map<Key, Cached>)
  {
    forall i | VisKey(i) in cache :: SameAt(u, w, i) || (i.Sym? && i.id < |cfg.syms| && cfg.syms[i.id].prompts == [])
  }

  lemma ElsewhereAgrees(cfg: Config, u: User, w: User, cache: map<Key, Cached>)
    requires WellFormed(cfg) && WellFormedUser(cfg, u) && WellFormedUser(cfg, w) && Elsewhere(cfg, u, w, cache)
    ensures UsersAgree(u, w, Scratch(cfg, u), cache.Keys) && UsersAgree(w, u, Scratch(cfg, w), cache.Keys)
  {
    hide WellFormed, Eval, Scratch;
    forall i | VisKey(i) in cache && !SameAt(u, w, i)
      ensures i.Sym? && Scratch(cfg, u)(VisKey(i)) == TriVal(0) == Scratch(cfg, w)(VisKey(i))
    {
      PromptlessInvisible(cfg, u, i.id);
      PromptlessInvisible(cfg, w, i.id);
    }
  }

  lemma RightWhereFixed(cfg: Config, u: User, w: User, before: map<Key, Cached>, after: map<Key, Cached>, ks: set<Key>, fixed: set<Key>, k: Key)
    requires WellFormed(cfg) && WellFormedUser(cfg, u) && WellFormedUser(cfg, w)
    requires Consistent(cfg, u, before) && SubMap(after, before) && ks <= after.Keys
    requires Anchors(cfg, u, w, ks, fixed) && k in ks && ValidKey(cfg, k)
    ensures after[k] == Eval(cfg, w, k)
  {
    hide WellFormed, Eval, Scratch, Seen, Closed, Anchors;
    Anchored(cfg, u, w, ks, fixed, k);
    ScratchIs(cfg, u, k);
    ScratchIs(cfg, w, k);
    assert before[k] == Eval(cfg, u, k);
  }

  lemma UntaintedAnchors(cfg: Config, u: User, w: User, before: map<Key, Cached>, after: map<Key, Cached>, ks: set<Key>)
    requires WellFormed(cfg) && WellFormedUser(cfg, u) && WellFormedUser(cfg, w)
    requires Consistent(cfg, u, before) && Pruned(cfg, before, after) && Elsewhere(cfg, u, w, after)
    requires forall k :: k in ks <==> k in after && ValidKey(cfg, k) && !Tainted(cfg, u, after, k)
    ensures Anchors(cfg, u, w, ks, {})
  {
    hide WellFormed, Eval, Scratch, Seen, Rank, Loses, Swept, SameAt;
    ElsewhereAgrees(cfg, u, w, after);
    forall k, r | k in ks && Needs(cfg, u, k, r) ensures r in ks {
      ReadKept(cfg, u, before, after, k, r);
      ReadRanks(cfg, u, k, r);
    }
  }

  lemma LossAnchors(cfg: Config, u: User, w: User, before: map<Key, Cached>, after: map<Key, Cached>, fixed: set<Key>)
    requires WellFormed(cfg) && WellFormedUser(cfg, u) && WellFormedUser(cfg, w)
    requires Consistent(cfg, u, before) && Pruned(cfg, before, after) && Elsewhere(cfg, u, w, after)
    requires forall k :: k in fixed <==> k in after && Loses(cfg, u, after, k)
    requires forall k | k in fixed :: ValidKey(cfg, k) && after[k] == Eval(cfg, w, k)
    ensures Anchors(cfg, u, w, after.Keys, fixed)
  {
    hide WellFormed, Eval, Scratch, Seen, Loses, Swept, SameAt, Elsewhere;
    ElsewhereAgrees(cfg, u, w, after);
    forall k | k in fixed ensures Scratch(cfg, u)(k) == Scratch(cfg, w)(k) {
      ScratchIs(cfg, u, k);
      ScratchIs(cfg, w, k);
      assert before[k] == Eval(cfg, u, k);
    }
    forall k, r | k in after && k !in fixed && Needs(cfg, u, k, r) ensures r in after {
      ReadKept(cfg, u, before, after, k, r);
    }
  }

  lemma StaleOnly(cfg: Config, u: User, w: User, before: map<Key, Cached>, after: map<Key, Cached>)
    requires WellFormed(cfg) && WellFormedUser(cfg, u) && WellFormedUser(cfg, w)
    requires Consistent(cfg, u, before) && Pruned(cfg, before, after) && Elsewhere(cfg, u, w, after)
    ensures StaleFrom(cfg, u, w, after)
  {
    hide WellFormed, Eval, Scratch, Seen, Loses, Tainted, Swept, Elsewhere, Anchors, Closed;
    assert forall k | k in after :: ValidKey(cfg, k);
    var ks := set k | k in after && ValidKey(cfg, k) && !Tainted(cfg, u, after, k);
    UntaintedAnchors(cfg, u, w, before, after, ks);
    forall k | k in ks ensures after[k] == Eval(cfg, w, k) { RightWhereFixed(cfg, u, w, before, after, ks, {}, k); }
    var fixed := set k | k in after && Loses(cfg, u, after, k);
    if forall k | k in fixed :: after[k] == Eval(cfg, w, k) {
      LossAnchors(cfg, u, w, before, after, fixed);
      forall k | k in after ensures after[k] == Eval(cfg, w, k) { RightWhereFixed(cfg, u, w, before, after, after.Keys, fixed, k); }
    }
  }

  lemma LossGone(cfg: Config, user: User, before: map<Key, Cached>, after: map<Key, Cached>, target: Option<Item>, c: nat, r: Key)
    requires WellFormed(cfg) && Consistent(cfg, user, before) && Cleared(cfg, before, after, target) && StrayRead(cfg, user, c, r)
    ensures SelKey(c) in after && r !in after <==>
              && target.Some? && SelKey(c) in before
              && Gone(cfg, before, target.value, ItemOf(r)) && !Gone(cfg, before, target.value, Cho(c))
  {
    hide WellFormed, Eval, Seen, Stray, Swept, Gone;
    assert SelKey(c) in before ==> r in before by { assert Needs(cfg, user, SelKey(c), r); }
  }

  lemma RightExactly(cfg: Config, u: User, w: User, before: map<Key, Cached>, after: map<Key, Cached>, target: Option<Item>)
    requires WellFormed(cfg) && Consistent(cfg, u, before) && Cleared(cfg, before, after, target) && StaleFrom(cfg, u, w, after)
    ensures AllRight(cfg, w, after) <==> StillRight(cfg, u, w, before, target)
  {
    hide WellFormed, Eval, Needs, Closed, Stray, Swept, Gone, Tainted, RemovesGone;
    forall k | k in after ensures after[k] == Eval(cfg, u, k) { assert before[k] == Eval(cfg, u, k); }
    if StillRight(cfg, u, w, before, target) {
      forall k | k in after && Loses(cfg, u, after, k) ensures after[k] == Eval(cfg, w, k) {
        var r :| StrayRead(cfg, u, k.choice, r) && r !in after;
        LossGone(cfg, u, before, after, target, k.choice, r);
      }
    } else {
      var c, r :| SelKey(c) in before && StrayRead(cfg, u, c, r)
                  && Gone(cfg, before, target.value, ItemOf(r)) && !Gone(cfg, before, target.value, Cho(c))
                  && Eval(cfg, u, SelKey(c)) != Eval(cfg, w, SelKey(c));
      LossGone(cfg, u, before, after, target, c, r);
    }
  }

  lemma SafeExactly(cfg: Config, user: User, before: map<Key, Cached>, after: map<Key, Cached>, target: Option<Item>)
    requires WellFormed(cfg) && Consistent(cfg, user, before) && Cleared(cfg, before, after, target)
    ensures (forall k :: !Loses(cfg, user, after, k)) <==> StraySafe(cfg, user, before, target)
  {
    hide WellFormed, Eval, Seen, Stray, Swept, Gone;
    forall c, r | SelKey(c) in before && StrayRead(cfg, user, c, r) ensures r in before {
      assert Needs(cfg, user, SelKey(c), r);
    }
    if forall k :: !Loses(cfg, user, after, k) {
      forall c, r | target.Some? && SelKey(c) in before && StrayRead(cfg, user, c, r) && Gone(cfg, before, target.value, ItemOf(r))
        ensures Gone(cfg, before, target.value, Cho(c))
      {
        assert !Loses(cfg, user, after, SelKey(c));
      }
    }
  }

  /**
   * The input changed from u to w, and the invalidation cleared every item with a prompt where they differ. What is left is
   * consistent with the new input if and only if no selection loses a stray default, and right for it if and only if those
   * that do evaluate as before.
   */
  lemma Reassigned(cfg: Config, u: User, w: User, before: map<Key, Cached>, after: map<Key, Cached>, target: Option<Item>)
    requires WellFormed(cfg) && WellFormedUser(cfg, u) && WellFormedUser(cfg, w)
    requires Consistent(cfg, u, before) && Cleared(cfg, before, after, target) && Elsewhere(cfg, u, w, after)
    ensures Consistent(cfg, w, after) <==> StraySafe(cfg, u, before, target)
    ensures AllRight(cfg, w, after) <==> StillRight(cfg, u, w, before, target)
    ensures StaleFrom(cfg, u, w, after)
  {
    hide WellFormed, Consistent, Pruned, Elsewhere, Loses, StraySafe, StaleFrom, AllRight, StillRight;
    ElsewhereAgrees(cfg, u, w, after);
    SafeExactly(cfg, u, before, after, target);
    PruningSuffices(cfg, u, before, after);
    if Consistent(cfg, u, after) { Rebased(cfg, u, w, after); }
    if Consistent(cfg, w, after) { Rebased(cfg, w, u, after); }
    StaleOnly(cfg, u, w, before, after);
    RightExactly(cfg, u, w, before, after, target);
  }

  lemma SameEverywhere(cfg: Config, user: User, cache: map<Key, Cached>)
    ensures Cleared(cfg, cache, cache, None) && Elsewhere(cfg, user, user, cache)
  {
  }

  lemma SameModeAgain(cfg: Config, user: User, c: nat, v: Tri)
    requires c < |cfg.choices| && SameMode(user, c, v)
    ensures AfterSetChoice(cfg, user, c, v) == user
  {
    assert user.choiceVal[c := v] == user.choiceVal;
  }

  lemma UnsetElsewhere(user: User, s: nat)
    ensures forall i | i != Sym(s) :: SameAt(user, user.(symVal := user.symVal - {s}), i)
  {
  }

  lemma LowLeaves(cfg: Config, i: Item, e: Expr, bound: nat)
    requires WellFormed(cfg) && ValidItem(cfg, i) && e in ExprsOf(cfg, i) && 5 * Level(cfg, i) <= bound
    requires i.Sym? ==> cfg.syms[i.id].isDefined
    ensures Leaves(e) <= LowSyms(cfg, bound)
  {
    ExprMentioned(cfg, i, e);
    match i case Sym(s) => assert WellFormedSym(cfg, s); case Cho(c) => assert WellFormedChoice(cfg, c);
  }

  function PromptsOf(cfg: Config, i: Item): seq<Expr>
    requires ValidItem(cfg, i)
  {
    match i case Sym(s) => cfg.syms[s].prompts case Cho(c) => cfg.choices[c].prompts
  }

  lemma LowPrompts(cfg: Config, i: Item, bound: nat)
    requires WellFormed(cfg) && ValidItem(cfg, i) && 5 * Level(cfg, i) <= bound
    ensures forall p | p in PromptsOf(cfg, i) :: Leaves(p) <= LowSyms(cfg, bound)
  {
    forall p | p in PromptsOf(cfg, i) ensures Leaves(p) <= LowSyms(cfg, bound) {
      if i.Sym? { assert WellFormedSym(cfg, i.id); }
      LowLeaves(cfg, i, p, bound);
    }
  }

  lemma LowDefaults(cfg: Config, s: nat, bound: nat)
    requires WellFormed(cfg) && s < |cfg.syms| && cfg.syms[s].isDefined && 5 * Level(cfg, Sym(s)) <= bound
    ensures forall d | d in cfg.syms[s].defaults :: Leaves(d.cond) <= LowSyms(cfg, bound) && Leaves(d.value) <= LowSyms(cfg, bound)
  {
    var ds := cfg.syms[s].defaults;
    forall n | 0 <= n < |ds| ensures Leaves(ds[n].cond) <= LowSyms(cfg, bound) && Leaves(ds[n].value) <= LowSyms(cfg, bound) {
      DefaultListed(ds, n);
      LowLeaves(cfg, Sym(s), ds[n].cond, bound);
      LowLeaves(cfg, Sym(s), ds[n].value, bound);
    }
  }

  lemma LowRanges(cfg: Config, s: nat, bound: nat)
    requires WellFormed(cfg) && s < |cfg.syms| && cfg.syms[s].isDefined && 5 * Level(cfg, Sym(s)) <= bound
    ensures forall r | r in cfg.syms[s].ranges :: Leaves(r.cond) + {r.low, r.high} <= LowSyms(cfg, bound)
  {
    var rs := cfg.syms[s].ranges;
    forall n | 0 <= n < |rs| ensures Leaves(rs[n].cond) + {rs[n].low, rs[n].high} <= LowSyms(cfg, bound) {
      RangeListed(rs, n);
      LowLeaves(cfg, Sym(s), rs[n].cond, bound);
      LowLeaves(cfg, Sym(s), Leaf(rs[n].low), bound);
      LowLeaves(cfg, Sym(s), Leaf(rs[n].high), bound);
    }
  }

  class Kconfig {
    const cfg: Config
    var user: User
    var cache: map<Key, Cached>
    var dependents: map<Item, set<Item>>

    ghost predicate Valid()
      reads this
    {
      && WellFormed(cfg)
      && WellFormedUser(cfg, user)
      && Consistent(cfg, user, cache)
      && Linked()
    }

    /** What holds even if the cache has gone stale. */
    ghost predicate Sound()
      reads this
    {
      WellFormed(cfg) && WellFormedUser(cfg, user) && Linked()
    }

    ghost predicate Linked()
      reads `dependents
    {
      && (forall j | ValidItem(cfg, j) :: j in dependents)
      && (forall j, i | ValidItem(cfg, j) :: Dep(dependents, j, i) <==> i in Dependents(cfg, j))
    }

    method Invalidate(i: Item)
      modifies this`cache
      ensures cache == Without(old(cache), {i})
    {
      cache := map k | k in cache && ItemOf(k) != i :: cache[k];
    }

    method InvalidateAll()
      modifies this`cache
      ensures cache == Without(old(cache), Items(cfg))
    {
      ghost var gone: set<Item> := {};
      WithoutNone(cache);
      hide Without;
      for s := 0 to |cfg.syms|
        invariant cache == Without(old(cache), gone)
        invariant forall i :: i in gone <==> i in Items(cfg) && i.Sym? && i.id < s
      {
        if cfg.syms[s].isDefined {
          Invalidate(Sym(s));
          WithoutBoth(old(cache), gone, Sym(s));
          gone := gone + {Sym(s)};
        }
      }
      for c := 0 to |cfg.choices|
        invariant cache == Without(old(cache), gone)
        invariant forall i :: i in gone <==> i in Items(cfg) && (i.Cho? ==> i.id < c)
      {
        Invalidate(Cho(c));
        WithoutBoth(old(cache), gone, Cho(c));
        gone := gone + {Cho(c)};
      }
      assert gone == Items(cfg);
    }

    method RecInvalidate(x: Item)
      requires WellFormed(cfg) && Linked() && x in Items(cfg)
      modifies this`cache
      ensures Pruned(cfg, old(cache), cache)
      ensures Swept(cfg, cache, x)
      ensures RemovesGone(cfg, old(cache), cache, x)
      decreases |cache| + (if VisKey(x) in cache then 0 else 1), 1
    {
      ItemsAreValid(cfg);
      assert cfg.modules < |cfg.syms|;
      hide WellFormed, Linked, Without, Items, Sweeping, Pruned, Swept, Dependents, OnlyGone, RemovesGone;
      if x == Sym(cfg.modules) {
        InvalidateAll();
        AllSwept(cfg, old(cache), cache);
        AllGone(cfg, old(cache));
      } else {
        Invalidate(x);
        SweepBegins(cfg, old(cache), x);
        OneGone(cfg, old(cache), x);
        InvalidateDependents(x, old(cache));
        SweepDone(cfg, old(cache), cache, x);
      }
      GoneExactly(cfg, old(cache), cache, x);
    }

    /** The rest of the invalidation of x: only dependents with a cached visibility are followed. */
    method InvalidateDependents(x: Item, ghost before: map<Key, Cached>)
      requires WellFormed(cfg) && Linked() && x in Items(cfg) && ValidItem(cfg, x)
      requires Sweeping(cfg, before, cache, x, Dependents(cfg, x)) && OnlyGone(cfg, before, cache, x)
      modifies this`cache
      ensures Sweeping(cfg, before, cache, x, {}) && OnlyGone(cfg, before, cache, x)
      decreases |before| + (if VisKey(x) in before then 0 else 1), 0
    {
      var todo := dependents[x];
      assert todo == Dependents(cfg, x) by { assert forall i :: i in todo <==> Dep(dependents, x, i); }
      DependentsAreItems(cfg, x);
      ItemsAreValid(cfg);
      hide WellFormed, Linked, Items, Sweeping, Pruned, Swept, Dependents, OnlyGone, RemovesGone;
      while todo != {}
        invariant todo <= Dependents(cfg, x) && Sweeping(cfg, before, cache, x, todo) && OnlyGone(cfg, before, cache, x)
      {
        var item :| item in todo;
        assert todo == (todo - {item}) + {item};
        ghost var mid := cache;
        if VisKey(item) in cache {
          StillSmaller(cfg, before, cache, x, todo);
          RecInvalidate(item);
          RemovedOnly(cfg, mid, cache, item);
          OnlyGoneOn(cfg, before, mid, cache, x, item);
        }
        SweepOn(cfg, before, mid, cache, x, todo - {item}, item);
        todo := todo - {item};
      }
    }

    // -------------------------------------------------------------------------------------------
    // The dependency sets

    method DependOnSym(item: Item, s: nat)
      requires Sym(s) in dependents && s < |cfg.syms|
      modifies this`dependents
      ensures Registered(cfg, old(dependents), dependents, item, {s})
    {
      if !cfg.syms[s].isConstant {
        dependents := dependents[Sym(s) := dependents[Sym(s)] + {item}];
      }
    }

    method DependOn(item: Item, e: Expr)
      requires forall x | x in Leaves(e) :: Sym(x) in dependents && x < |cfg.syms|
      modifies this`dependents
      ensures Registered(cfg, old(dependents), dependents, item, Leaves(e))
      decreases e
    {
      match e
      case Leaf(s) => DependOnSym(item, s);
      case And(l, r) => DependOn(item, l); DependOn(item, r);
      case Or(l, r) => DependOn(item, l); DependOn(item, r);
      case Not(x) => DependOn(item, x);
      case Rel(_, a, b) => DependOnSym(item, a); DependOnSym(item, b);
    }

    method DependOnAll(item: Item, es: seq<Expr>)
      requires forall x | x in LeavesOf(es) :: Sym(x) in dependents && x < |cfg.syms|
      modifies this`dependents
      ensures Registered(cfg, old(dependents), dependents, item, LeavesOf(es))
    {
      for i := 0 to |es|
        invariant Registered(cfg, old(dependents), dependents, item, LeavesOf(es[..i]))
      {
        assert es[..i + 1][..i] == es[..i];
        forall x | x in Leaves(es[i]) ensures x in LeavesOf(es) { assert es[i] in es; LeavesListed(es, x); }
        DependOn(item, es[i]);
      }
      assert es[..|es|] == es;
    }

    method Register(item: Item)
      requires WellFormed(cfg) && item in Items(cfg) && ValidItem(cfg, item) && forall j | ValidItem(cfg, j) :: j in dependents
      modifies this`dependents
      ensures dependents.Keys == old(dependents).Keys
      ensures forall j, i :: Dep(dependents, j, i) <==>
                Dep(old(dependents), j, i) || (i == item && Registrable(cfg, j) && Mentions(cfg, item, j.id))
    {
      var es := ExprsOf(cfg, item);
      forall x: nat ensures x in LeavesOf(es) <==> Mentions(cfg, item, x) { LeavesListed(es, x); }
      match item { case Sym(s) => assert WellFormedSym(cfg, s); case Cho(c) => assert WellFormedChoice(cfg, c); }
      DependOnAll(item, es);
    }

    /** A configuration nobody has touched: nothing is cached, and the dependency sets are complete. */
    constructor (cfg: Config)
      requires WellFormed(cfg)
      ensures Valid() && this.cfg == cfg
      ensures cache == map[] && user == User(map[], map[], map[])
    {
      this.cfg := cfg;
      user := User(map[], map[], map[]);
      cache := map[];
      dependents := (map s | 0 <= s < |cfg.syms| :: Sym(s) := {}) + (map c | 0 <= c < |cfg.choices| :: Cho(c) := {});
      new;
      BuildDep();
      AddChoiceDeps();
      forall j | ValidItem(cfg, j) ensures forall i :: Dep(dependents, j, i) <==> i in Dependents(cfg, j) {
        DependentsOf(cfg, j);
      }
    }

    method BuildDep()
      requires WellFormed(cfg) && forall j | ValidItem(cfg, j) :: j in dependents
      requires forall j, i :: !Dep(dependents, j, i)
      modifies this`dependents
      ensures dependents.Keys == old(dependents).Keys
      ensures forall j, i :: Dep(dependents, j, i) <==>
                Registrable(cfg, j) && i in Items(cfg) && ValidItem(cfg, i) && Mentions(cfg, i, j.id)
    {
      for s := 0 to |cfg.syms|
        invariant dependents.Keys == old(dependents).Keys
        invariant forall j, i :: Dep(dependents, j, i) <==>
                    && Registrable(cfg, j) && i in Items(cfg) && ValidItem(cfg, i) && Mentions(cfg, i, j.id)
                    && i.Sym? && i.id < s
      {
        if cfg.syms[s].isDefined {
          Register(Sym(s));
        }
      }
      for c := 0 to |cfg.choices|
        invariant dependents.Keys == old(dependents).Keys
        invariant forall j, i :: Dep(dependents, j, i) <==>
                    && Registrable(cfg, j) && i in Items(cfg) && ValidItem(cfg, i) && Mentions(cfg, i, j.id)
                    && (i.Cho? ==> i.id < c)
      {
        Register(Cho(c));
      }
    }

    method AddChoiceDeps()
      requires WellFormed(cfg) && forall j | ValidItem(cfg, j) :: j in dependents
      modifies this`dependents
      ensures dependents.Keys == old(dependents).Keys
      ensures forall j, i :: Dep(dependents, j, i) <==>
                Dep(old(dependents), j, i) || MemberPair(cfg, j, i) || MemberPair(cfg, i, j)
    {
      for c := 0 to |cfg.choices|
        invariant dependents.Keys == old(dependents).Keys
        invariant forall j, i :: Dep(dependents, j, i) <==>
                    || Dep(old(dependents), j, i)
                    || (MemberPair(cfg, j, i) && j.id < c) || (MemberPair(cfg, i, j) && i.id < c)
      {
        AddMembers(c);
      }
    }

    method AddMembers(c: nat)
      requires WellFormed(cfg) && c < |cfg.choices| && forall j | ValidItem(cfg, j) :: j in dependents
      modifies this`dependents
      ensures dependents.Keys == old(dependents).Keys
      ensures forall j, i :: Dep(dependents, j, i) <==>
                || Dep(old(dependents), j, i)
                || (MemberPair(cfg, j, i) && j.id == c) || (MemberPair(cfg, i, j) && i.id == c)
    {
      var ms := cfg.choices[c].syms;
      assert WellFormedChoice(cfg, c);
      for n := 0 to |ms|
        invariant dependents.Keys == old(dependents).Keys
        invariant forall j, i :: Dep(dependents, j, i) <==>
                    || Dep(old(dependents), j, i)
                    || (j == Cho(c) && i.Sym? && i.id in ms[..n]) || (i == Cho(c) && j.Sym? && j.id in ms[..n])
      {
        assert ms[..n + 1] == ms[..n] + [ms[n]];
        assert ms[n] in ms;
        dependents := dependents[Sym(ms[n]) := dependents[Sym(ms[n])] + {Cho(c)}];
        dependents := dependents[Cho(c) := dependents[Cho(c)] + {Sym(ms[n])}];
      }
      assert ms[..|ms|] == ms;
    }

    // -------------------------------------------------------------------------------------------
    // Reads. look is what evaluation from scratch gives; the ghost bound is the rank of the attribute
    // being computed, below which everything read lies.

    method Store(k: Key, v: Cached, ghost look: Look)
      requires Ready(cfg, user, look, cache) && ValidKey(cfg, k)
      requires Run(cfg, user, look, k).seen <= cache.Keys && v == Run(cfg, user, look, k).v
      modifies this`cache
      ensures Ready(cfg, user, look, cache) && cache == old(cache)[k := v] && SubMap(old(cache), cache) && v == look(k)
    {
      assert Solved(cfg, user, look, k);
      Grow(cfg, user, look, cache, k);
      if k in cache { assert cache[k] == look(k); }
      cache := cache[k := v];
    }

    method ReadExpr(e: Expr, ghost bound: nat, ghost look: Look) returns (v: Tri)
      requires Ready(cfg, user, look, cache) && Leaves(e) <= LowSyms(cfg, bound)
      modifies this`cache
      ensures Ready(cfg, user, look, cache) && SubMap(old(cache), cache)
      ensures v == Val(cfg, look, e) && Reads(cfg, look, e) <= cache.Keys
      decreases bound, 1, e
    {
      match e
      case Leaf(s) => v := ReadTri(s, look);
      case And(l, r) =>
        v := ReadExpr(l, bound, look);
        if v != 0 {
          var w := ReadExpr(r, bound, look);
          v := Min(v, w);
        }
      case Or(l, r) =>
        v := ReadExpr(l, bound, look);
        if v != 2 {
          var w := ReadExpr(r, bound, look);
          v := Max(v, w);
        }
      case Not(x) =>
        v := ReadExpr(x, bound, look);
        v := 2 - v;
      case Rel(op, a, b) =>
        var outcome := ReadRel(op, a, b, bound, look);
        v := if outcome then 2 else 0;
    }

    method ReadNum(s: nat, ghost bound: nat, ghost look: Look) returns (n: Option<int>)
      requires Ready(cfg, user, look, cache) && s in LowSyms(cfg, bound)
      modifies this`cache
      ensures Ready(cfg, user, look, cache) && SubMap(old(cache), cache)
      ensures n == ToNum(cfg, look, s) && NumKey(cfg, s) in cache
      decreases bound, 0, 0
    {
      if IsBoolTristate(cfg.syms[s].origType) {
        var t := ReadTri(s, look);
        n := Some(t);
      } else {
        var text := ReadStr(s, look);
        n := cfg.parse(text, Base(cfg.syms[s].origType));
      }
    }

    method ReadStrings(a: nat, b: nat, ghost bound: nat, ghost look: Look) returns (comp: int)
      requires Ready(cfg, user, look, cache) && a in LowSyms(cfg, bound) && b in LowSyms(cfg, bound)
      modifies this`cache
      ensures Ready(cfg, user, look, cache) && SubMap(old(cache), cache)
      ensures comp == Compare(AsStr(look(StrKey(a))), AsStr(look(StrKey(b)))) && StrKey(a) in cache && StrKey(b) in cache
      decreases bound, 0, 0
    {
      var x := ReadStr(a, look);
      var y := ReadStr(b, look);
      comp := Compare(x, y);
    }

    /** The difference of two numbers; the second is not looked at if the first is none. */
    method ReadNumbers(a: nat, b: nat, ghost bound: nat, ghost look: Look) returns (comp: Option<int>)
      requires Ready(cfg, user, look, cache) && a in LowSyms(cfg, bound) && b in LowSyms(cfg, bound)
      modifies this`cache
      ensures Ready(cfg, user, look, cache) && SubMap(old(cache), cache)
      ensures var x, y := ToNum(cfg, look, a), ToNum(cfg, look, b);
              && comp == (if x.Some? && y.Some? then Some(x.value - y.value) else None)
              && NumKey(cfg, a) in cache && (x.Some? ==> NumKey(cfg, b) in cache)
      decreases bound, 0, 1
    {
      var m := ReadNum(a, bound, look);
      if m.None? {
        return None;
      }
      var n := ReadNum(b, bound, look);
      comp := if n.Some? then Some(m.value - n.value) else None;
    }

    method ReadRel(op: RelOp, a: nat, b: nat, ghost bound: nat, ghost look: Look) returns (outcome: bool)
      requires Ready(cfg, user, look, cache) && a in LowSyms(cfg, bound) && b in LowSyms(cfg, bound)
      modifies this`cache
      ensures Ready(cfg, user, look, cache) && SubMap(old(cache), cache)
      ensures outcome == RelValue(cfg, look, op, a, b) && RelReads(cfg, look, a, b) <= cache.Keys
      decreases bound, 0, 2
    {
      var comp := None;
      if !(cfg.syms[a].origType.String? && cfg.syms[b].origType.String?) {
        comp := ReadNumbers(a, b, bound, look);
      }
      if comp.None? {
        var strings := ReadStrings(a, b, bound, look);
        comp := Some(strings);
      }
      outcome := Outcome(op, comp.value);
    }

    /** The largest prompt condition. */
    method ReadPrompts(ps: seq<Expr>, ghost bound: nat, ghost look: Look) returns (vis: Tri)
      requires Ready(cfg, user, look, cache) && forall p | p in ps :: Leaves(p) <= LowSyms(cfg, bound)
      modifies this`cache
      ensures Ready(cfg, user, look, cache) && SubMap(old(cache), cache)
      ensures vis == PromptsFrom(cfg, look, ps, 0).v && PromptsFrom(cfg, look, ps, 0).seen <= cache.Keys
      decreases bound, 1
    {
      vis := 0;
      for i := 0 to |ps|
        invariant Ready(cfg, user, look, cache) && SubMap(old(cache), cache)
        invariant PromptsFrom(cfg, look, ps, 0).v == Max(vis, PromptsFrom(cfg, look, ps, i).v)
        invariant PromptsFrom(cfg, look, ps, 0).seen <= cache.Keys + PromptsFrom(cfg, look, ps, i).seen
      {
        var v := ReadExpr(ps[i], bound, look);
        vis := Max(vis, v);
      }
    }

    method ReadMode(c: nat, ghost bound: nat, ghost look: Look) returns (val: Tri)
      requires Ready(cfg, user, look, cache) && c < |cfg.choices| && Rank(cfg, VisKey(Cho(c))) < bound
      requires cfg.choices[c].origType.Tristate? ==> Rank(cfg, TriKey(cfg.modules)) < bound
      modifies this`cache
      ensures Ready(cfg, user, look, cache) && SubMap(old(cache), cache)
      ensures val == ChoiceMode(cfg, user, look, c).v && ChoiceMode(cfg, user, look, c).seen <= cache.Keys
      decreases bound, 1
    {
      val := if cfg.choices[c].isOptional then 0 else 1;
      if c in user.choiceVal {
        val := Max(val, user.choiceVal[c]);
      }
      var vis := ReadVisibility(Cho(c), look);
      val := Min(val, vis);
      if val == 1 {
        if cfg.choices[c].origType.Tristate? {
          var modules := ReadTri(cfg.modules, look);
          if modules == 0 {
            val := 2;
          }
        } else if cfg.choices[c].origType.Bool? {
          val := 2;
        }
      }
    }

    /** Whether a tristate symbol counts as bool for now. */
    method ReadDemoted(s: nat, ghost bound: nat, ghost look: Look) returns (demoted: bool)
      requires Ready(cfg, user, look, cache) && s < |cfg.syms| && WellFormedSym(cfg, s)
      requires Rank(cfg, VisKey(Sym(s))) <= bound && Rank(cfg, TriKey(cfg.modules)) < bound
      modifies this`cache
      ensures Ready(cfg, user, look, cache) && SubMap(old(cache), cache)
      ensures demoted == Demoted(cfg, user, look, s).v && Demoted(cfg, user, look, s).seen <= cache.Keys
      decreases bound, 2
    {
      if cfg.syms[s].choice.Some? {
        var c := cfg.syms[s].choice.value;
        assert WellFormedChoice(cfg, c);
        var mode := ReadMode(c, bound, look);
        if mode == 2 {
          return true;
        }
      }
      var modules := ReadTri(cfg.modules, look);
      demoted := modules == 0;
    }

    method ReadVisibility(i: Item, ghost look: Look) returns (vis: Tri)
      requires Ready(cfg, user, look, cache) && ValidItem(cfg, i)
      modifies this`cache
      ensures Ready(cfg, user, look, cache) && SubMap(old(cache), cache)
      ensures VisKey(i) in cache && vis == AsTri(look(VisKey(i)))
      decreases Rank(cfg, VisKey(i)), 3
    {
      if VisKey(i) in cache {
        return AsTri(cache[VisKey(i)]);
      }
      ghost var bound := Rank(cfg, VisKey(i));
      var ps := PromptsOf(cfg, i);
      LowPrompts(cfg, i, bound);
      vis := ReadPrompts(ps, bound, look);
      if vis == 1 {
        match i {
          case Sym(s) =>
            assert WellFormedSym(cfg, s);
            var promote := true;
            if cfg.syms[s].origType.Tristate? {
              promote := ReadDemoted(s, bound, look);
            }
            vis := if promote then 2 else 1;
          case Cho(c) =>
            assert WellFormedChoice(cfg, c);
            var promote := true;
            if cfg.choices[c].origType.Tristate? {
              var modules := ReadTri(cfg.modules, look);
              promote := modules == 0;
            }
            vis := if promote then 2 else 1;
        }
      }
      Store(VisKey(i), TriVal(vis), look);
    }

    method ReadDefaults(ds: seq<Default>, ghost bound: nat, ghost look: Look) returns (val: Tri)
      requires Ready(cfg, user, look, cache)
      requires forall d | d in ds :: Leaves(d.cond) <= LowSyms(cfg, bound) && Leaves(d.value) <= LowSyms(cfg, bound)
      modifies this`cache
      ensures Ready(cfg, user, look, cache) && SubMap(old(cache), cache)
      ensures val == DefaultsFrom(cfg, look, ds, 0).v && DefaultsFrom(cfg, look, ds, 0).seen <= cache.Keys
      decreases bound, 1
    {
      for i := 0 to |ds|
        invariant Ready(cfg, user, look, cache) && SubMap(old(cache), cache)
        invariant DefaultsFrom(cfg, look, ds, 0).v == DefaultsFrom(cfg, look, ds, i).v
        invariant DefaultsFrom(cfg, look, ds, 0).seen <= cache.Keys + DefaultsFrom(cfg, look, ds, i).seen
      {
        var cond := ReadExpr(ds[i].cond, bound, look);
        if cond != 0 {
          val := ReadExpr(ds[i].value, bound, look);
          return Min(val, cond);
        }
      }
      val := 0;
    }

    method ReadTriBase(s: nat, ghost bound: nat, ghost look: Look) returns (val: Tri)
      requires Ready(cfg, user, look, cache) && s < |cfg.syms| && cfg.syms[s].isDefined && bound == Rank(cfg, TriKey(s))
      modifies this`cache
      ensures Ready(cfg, user, look, cache) && SubMap(old(cache), cache)
      ensures val == TriBase(cfg, user, look, s).v && TriBase(cfg, user, look, s).seen <= cache.Keys
      decreases bound, 2
    {
      var sym := cfg.syms[s];
      var vis := ReadVisibility(Sym(s), look);
      if vis != 0 && s in user.symVal && user.symVal[s].UserTri? {
        return Min(user.symVal[s].tri, vis);
      }
      LowDefaults(cfg, s, bound);
      val := ReadDefaults(sym.defaults, bound, look);
      LowLeaves(cfg, Sym(s), sym.weakRevDep, bound);
      LowLeaves(cfg, Sym(s), sym.directDep, bound);
      var weak := ReadExpr(sym.weakRevDep, bound, look);
      if weak != 0 {
        var direct := ReadExpr(sym.directDep, bound, look);
        if direct != 0 {
          val := Max(weak, val);
        }
      }
    }

    method ReadTriFree(s: nat, ghost bound: nat, ghost look: Look) returns (val: Tri)
      requires Ready(cfg, user, look, cache) && s < |cfg.syms| && cfg.syms[s].isDefined && bound == Rank(cfg, TriKey(s))
      requires IsBoolTristate(cfg.syms[s].origType) && cfg.syms[s].constant.None? && cfg.syms[s].choice.None?
      modifies this`cache
      ensures Ready(cfg, user, look, cache) && SubMap(old(cache), cache)
      ensures val == TriFree(cfg, user, look, s).v && TriFree(cfg, user, look, s).seen <= cache.Keys
      decreases bound, 3
    {
      var sym := cfg.syms[s];
      val := ReadTriBase(s, bound, look);
      LowLeaves(cfg, Sym(s), sym.revDep, bound);
      LowLeaves(cfg, Sym(s), sym.weakRevDep, bound);
      LowLeaves(cfg, Sym(s), sym.directDep, bound);
      var rev := ReadExpr(sym.revDep, bound, look);
      if rev != 0 {
        var _ := ReadExpr(sym.directDep, bound, look); // Compared only to warn
        val := Max(rev, val);
      }
      if val == 1 {
        var isBool := sym.origType.Bool?;
        if sym.origType.Tristate? {
          assert WellFormedSym(cfg, s);
          isBool := ReadDemoted(s, bound, look);
        }
        if isBool {
          return 2;
        }
        var weak := ReadExpr(sym.weakRevDep, bound, look);
        if weak == 2 {
          return 2;
        }
      }
    }

    method ReadTri(s: nat, ghost look: Look) returns (val: Tri)
      requires Ready(cfg, user, look, cache) && s < |cfg.syms|
      modifies this`cache
      ensures Ready(cfg, user, look, cache) && SubMap(old(cache), cache)
      ensures TriKey(s) in cache && val == AsTri(look(TriKey(s)))
      decreases Rank(cfg, TriKey(s)), 4
    {
      if TriKey(s) in cache {
        return AsTri(cache[TriKey(s)]);
      }
      var sym := cfg.syms[s];
      val := 0;
      if sym.constant.Some? {
        val := sym.constant.value;
      } else if IsBoolTristate(sym.origType) {
        assert WellFormedSym(cfg, s);
        if sym.choice.None? {
          val := ReadTriFree(s, Rank(cfg, TriKey(s)), look);
        } else {
          assert WellFormedChoice(cfg, sym.choice.value);
          var vis := ReadVisibility(Sym(s), look);
          if vis != 0 {
            var selection := ReadSelection(sym.choice.value, look);
            val := if selection == Some(s) then 2 else 0;
          }
        }
      }
      Store(TriKey(s), TriVal(val), look);
    }

    method ReadRange(rs: seq<Range>, base: nat, ghost bound: nat, ghost look: Look) returns (range: Option<(int, int)>)
      requires Ready(cfg, user, look, cache)
      requires forall r | r in rs :: Leaves(r.cond) + {r.low, r.high} <= LowSyms(cfg, bound)
      modifies this`cache
      ensures Ready(cfg, user, look, cache) && SubMap(old(cache), cache)
      ensures range == RangesFrom(cfg, look, rs, base, 0).v && RangesFrom(cfg, look, rs, base, 0).seen <= cache.Keys
      decreases bound, 1
    {
      for i := 0 to |rs|
        invariant Ready(cfg, user, look, cache) && SubMap(old(cache), cache)
        invariant RangesFrom(cfg, look, rs, base, 0).v == RangesFrom(cfg, look, rs, base, i).v
        invariant RangesFrom(cfg, look, rs, base, 0).seen <= cache.Keys + RangesFrom(cfg, look, rs, base, i).seen
      {
        assert rs[i] in rs;
        var cond := ReadExpr(rs[i].cond, bound, look);
        if cond != 0 {
          var low := ReadStr(rs[i].low, look);
          var high := ReadStr(rs[i].high, look);
          return Some((Number(cfg, low, base), Number(cfg, high, base)));
        }
      }
      range := None;
    }

    method ReadStrDefault(ds: seq<Default>, ghost bound: nat, ghost look: Look) returns (text: Option<string>)
      requires Ready(cfg, user, look, cache) && forall d | d in ds :: d.value.Leaf?
      requires forall d | d in ds :: Leaves(d.cond) <= LowSyms(cfg, bound) && Leaves(d.value) <= LowSyms(cfg, bound)
      modifies this`cache
      ensures Ready(cfg, user, look, cache) && SubMap(old(cache), cache)
      ensures text == StrDefaultsFrom(cfg, look, ds, 0).v && StrDefaultsFrom(cfg, look, ds, 0).seen <= cache.Keys
      decreases bound, 1
    {
      for i := 0 to |ds|
        invariant Ready(cfg, user, look, cache) && SubMap(old(cache), cache)
        invariant StrDefaultsFrom(cfg, look, ds, 0).v == StrDefaultsFrom(cfg, look, ds, i).v
        invariant StrDefaultsFrom(cfg, look, ds, 0).seen <= cache.Keys + StrDefaultsFrom(cfg, look, ds, i).seen
      {
        assert ds[i] in ds;
        var cond := ReadExpr(ds[i].cond, bound, look);
        if cond != 0 {
          assert ds[i].value.sym in Leaves(ds[i].value);
          var val := ReadStr(ds[i].value.sym, look);
          return Some(val);
        }
      }
      text := None;
    }

    /** The value of a string, int or hex symbol. */
    method ReadText(s: nat, ghost bound: nat, ghost look: Look) returns (val: string)
      requires Ready(cfg, user, look, cache) && s < |cfg.syms| && cfg.syms[s].isDefined && bound == Rank(cfg, StrKey(s))
      requires !IsBoolTristate(cfg.syms[s].origType) && !cfg.syms[s].origType.Unknown?
      requires forall d | d in cfg.syms[s].defaults :: d.value.Leaf?
      modifies this`cache
      ensures Ready(cfg, user, look, cache) && SubMap(old(cache), cache)
      ensures val == SymStr(cfg, user, look, s).v && SymStr(cfg, user, look, s).seen <= cache.Keys
      decreases bound, 2
    {
      var sym := cfg.syms[s];
      LowDefaults(cfg, s, bound);
      var vis := ReadVisibility(Sym(s), look);
      var text := UserText(user, s);
      if sym.origType.String? {
        if vis != 0 && text.Some? {
          return text.value;
        }
        var def := ReadStrDefault(sym.defaults, bound, look);
        return if def.Some? then def.value else "";
      }
      val := ReadNumText(s, vis, bound, look);
    }

    /** The value of an int or hex symbol with this visibility, within its range. */
    method ReadNumText(s: nat, vis: Tri, ghost bound: nat, ghost look: Look) returns (val: string)
      requires Ready(cfg, user, look, cache) && s < |cfg.syms| && cfg.syms[s].isDefined && bound == Rank(cfg, StrKey(s))
      requires VisKey(Sym(s)) in cache && vis == AsTri(look(VisKey(Sym(s))))
      requires cfg.syms[s].origType.Int? || cfg.syms[s].origType.Hex?
      requires forall d | d in cfg.syms[s].defaults :: d.value.Leaf?
      modifies this`cache
      ensures Ready(cfg, user, look, cache) && SubMap(old(cache), cache)
      ensures val == SymNumText(cfg, user, look, s).v && SymNumText(cfg, user, look, s).seen <= cache.Keys
      decreases bound, 2, 0
    {
      var sym := cfg.syms[s];
      LowDefaults(cfg, s, bound);
      LowRanges(cfg, s, bound);
      var text := UserText(user, s);
      var base := Base(sym.origType);
      var range := ReadRange(sym.ranges, base, bound, look);
      var num: int;
      if vis != 0 && text.Some? && text.value != "" {
        num := Number(cfg, text.value, base);
        val := text.value;
      } else {
        var def := ReadStrDefault(sym.defaults, bound, look);
        num := if def.Some? then Number(cfg, def.value, base) else 0;
        val := if def.Some? then def.value else if sym.origType.Int? then "0" else "0x0";
      }
      if range.Some? && num < range.value.0 {
        val := cfg.format(range.value.0, base);
      } else if range.Some? && num > range.value.1 {
        val := cfg.format(range.value.1, base);
      }
    }

    method ReadStr(s: nat, ghost look: Look) returns (val: string)
      requires Ready(cfg, user, look, cache) && s < |cfg.syms|
      modifies this`cache
      ensures Ready(cfg, user, look, cache) && SubMap(old(cache), cache)
      ensures StrKey(s) in cache && val == AsStr(look(StrKey(s)))
      decreases Rank(cfg, StrKey(s)), 3
    {
      if StrKey(s) in cache {
        return AsStr(cache[StrKey(s)]);
      }
      assert WellFormedSym(cfg, s);
      if IsBoolTristate(cfg.syms[s].origType) {
        var tri := ReadTri(s, look);
        val := ["n", "m", "y"][tri];
      } else if cfg.syms[s].origType.Unknown? {
        val := cfg.syms[s].name;
      } else {
        val := ReadText(s, Rank(cfg, StrKey(s)), look);
      }
      Store(StrKey(s), StrVal(val), look);
    }

    method ReadChoiceDefault(c: nat, ghost bound: nat, ghost look: Look) returns (sel: Option<nat>)
      requires Ready(cfg, user, look, cache) && c < |cfg.choices| && bound == Rank(cfg, SelKey(c))
      modifies this`cache
      ensures Ready(cfg, user, look, cache) && SubMap(old(cache), cache)
      ensures var r := ChoiceDefaultsFrom(cfg, look, cfg.choices[c].defaults, 0); sel == r.v && r.seen <= cache.Keys
      decreases bound, 1
    {
      var ds := cfg.choices[c].defaults;
      assert WellFormedChoice(cfg, c);
      hide WellFormedSym, MayRead;
      for i := 0 to |ds|
        invariant Ready(cfg, user, look, cache) && SubMap(old(cache), cache)
        invariant ChoiceDefaultsFrom(cfg, look, ds, 0).v == ChoiceDefaultsFrom(cfg, look, ds, i).v
        invariant ChoiceDefaultsFrom(cfg, look, ds, 0).seen <= cache.Keys + ChoiceDefaultsFrom(cfg, look, ds, i).seen
      {
        CondListed(ds, i);
        LowLeaves(cfg, Cho(c), ds[i].cond, bound);
        assert ds[i] in ds;
        var cond := ReadExpr(ds[i].cond, bound, look);
        if cond != 0 {
          var vis := ReadVisibility(Sym(ds[i].sym), look);
          if vis != 0 {
            return Some(ds[i].sym);
          }
        }
      }
      sel := None;
    }

    method ReadFirstVisible(c: nat, untouched: bool, ghost bound: nat, ghost look: Look) returns (sel: Option<nat>)
      requires Ready(cfg, user, look, cache) && c < |cfg.choices| && bound == Rank(cfg, SelKey(c))
      modifies this`cache
      ensures Ready(cfg, user, look, cache) && SubMap(old(cache), cache)
      ensures var r := VisibleFrom(user, look, cfg.choices[c].syms, untouched, 0); sel == r.v && r.seen <= cache.Keys
      decreases bound, 1
    {
      var ms := cfg.choices[c].syms;
      assert WellFormedChoice(cfg, c);
      for i := 0 to |ms|
        invariant Ready(cfg, user, look, cache) && SubMap(old(cache), cache)
        invariant VisibleFrom(user, look, ms, untouched, 0).v == VisibleFrom(user, look, ms, untouched, i).v
        invariant VisibleFrom(user, look, ms, untouched, 0).seen <= cache.Keys + VisibleFrom(user, look, ms, untouched, i).seen
      {
        assert ms[i] in ms;
        var vis := ReadVisibility(Sym(ms[i]), look);
        if vis != 0 && (!untouched || ms[i] !in user.symVal) {
          return Some(ms[i]);
        }
      }
      sel := None;
    }

    method ReadLastVisible(c: nat, ghost bound: nat, ghost look: Look) returns (sel: Option<nat>)
      requires Ready(cfg, user, look, cache) && c < |cfg.choices| && bound == Rank(cfg, SelKey(c))
      modifies this`cache
      ensures Ready(cfg, user, look, cache) && SubMap(old(cache), cache)
      ensures var r := LastVisible(look, cfg.choices[c].syms, |cfg.choices[c].syms|); sel == r.v && r.seen <= cache.Keys
      decreases bound, 1
    {
      var ms := cfg.choices[c].syms;
      assert WellFormedChoice(cfg, c);
      for i := |ms| downto 0
        invariant Ready(cfg, user, look, cache) && SubMap(old(cache), cache)
        invariant LastVisible(look, ms, |ms|).v == LastVisible(look, ms, i).v
        invariant LastVisible(look, ms, |ms|).seen <= cache.Keys + LastVisible(look, ms, i).seen
      {
        assert ms[i] in ms;
        var vis := ReadVisibility(Sym(ms[i]), look);
        if vis != 0 {
          return Some(ms[i]);
        }
      }
      sel := None;
    }

    method ReadSelection(c: nat, ghost look: Look) returns (sel: Option<nat>)
      requires Ready(cfg, user, look, cache) && c < |cfg.choices|
      modifies this`cache
      ensures Ready(cfg, user, look, cache) && SubMap(old(cache), cache)
      ensures SelKey(c) in cache && sel == AsSel(look(SelKey(c)))
      decreases Rank(cfg, SelKey(c)), 4
    {
      if SelKey(c) in cache {
        return AsSel(cache[SelKey(c)]);
      }
      sel := Select(c, Rank(cfg, SelKey(c)), look);
      Store(SelKey(c), SelVal(sel), look);
    }

    method Select(c: nat, ghost bound: nat, ghost look: Look) returns (sel: Option<nat>)
      requires Ready(cfg, user, look, cache) && c < |cfg.choices| && bound == Rank(cfg, SelKey(c))
      modifies this`cache
      ensures Ready(cfg, user, look, cache) && SubMap(old(cache), cache)
      ensures sel == Selection(cfg, user, look, c).v && Selection(cfg, user, look, c).seen <= cache.Keys
      decreases bound, 3
    {
      sel := SelectUser(c, bound, look);
      if sel.Some? {
        return;
      }
      sel := SelectDefault(c, bound, look);
      if sel.Some? && SetToNo(user, sel.value) {
        sel := None;
      }
      if sel.None? {
        sel := ReadFirstVisible(c, true, bound, look);
        if sel.None? {
          sel := ReadLastVisible(c, bound, look);
        }
      }
    }

    method SelectUser(c: nat, ghost bound: nat, ghost look: Look) returns (sel: Option<nat>)
      requires Ready(cfg, user, look, cache) && c < |cfg.choices| && bound == Rank(cfg, SelKey(c))
      modifies this`cache
      ensures Ready(cfg, user, look, cache) && SubMap(old(cache), cache)
      ensures VisKey(Cho(c)) in cache && (c in user.choiceSel ==> VisKey(Sym(user.choiceSel[c])) in cache)
      ensures sel == if c in user.choiceSel && AsTri(look(VisKey(Sym(user.choiceSel[c])))) != 0 then Some(user.choiceSel[c]) else None
      decreases bound, 2
    {
      var _ := ReadVisibility(Cho(c), look);
      if c in user.choiceSel {
        assert WellFormedSym(cfg, user.choiceSel[c]) && WellFormedChoice(cfg, c);
        var vis := ReadVisibility(Sym(user.choiceSel[c]), look);
        if vis != 0 {
          return Some(user.choiceSel[c]);
        }
      }
      sel := None;
    }

    method SelectDefault(c: nat, ghost bound: nat, ghost look: Look) returns (sel: Option<nat>)
      requires Ready(cfg, user, look, cache) && c < |cfg.choices| && bound == Rank(cfg, SelKey(c))
      modifies this`cache
      ensures Ready(cfg, user, look, cache) && SubMap(old(cache), cache)
      ensures var r := FromDefaults(cfg, user, look, c); sel == r.v && r.seen <= cache.Keys
      decreases bound, 2
    {
      sel := ReadChoiceDefault(c, bound, look);
      if sel.None? {
        sel := ReadFirstVisible(c, false, bound, look);
      }
    }

    // -------------------------------------------------------------------------------------------
    // The attributes and the assignments

    method Attribute(k: Key) returns (v: Cached)
      requires Valid() && ValidKey(cfg, k)
      modifies this`cache
      ensures Valid() && v == Eval(cfg, user, k)
      ensures SubMap(old(cache), cache) && k in cache && cache[k] == v
    {
      ghost var look := Scratch(cfg, user);
      ConsistentIsReady(cfg, user, cache);
      match k {
        case VisKey(i) => var _ := ReadVisibility(i, look);
        case TriKey(s) => var _ := ReadTri(s, look);
        case StrKey(s) => var _ := ReadStr(s, look);
        case SelKey(c) => var _ := ReadSelection(c, look);
      }
      v := cache[k];
      ReadyIsConsistent(cfg, user, cache);
    }

    /** The cache after an operation, exactly as far as it is right. */
    ghost predicate Assigned(was: User, before: map<Key, Cached>, op: Op)
      requires WellFormed(cfg) && ValidOp(cfg, op)
      reads this
    {
      && Sound() && user == Apply(cfg, was, op)
      && Cleared(cfg, before, cache, Target(cfg, was, op))
      && StaleFrom(cfg, was, user, cache)
      && (AllRight(cfg, user, cache) <==> StillRight(cfg, was, user, before, Target(cfg, was, op)))
      && (Valid() <==> SafeIn(cfg, was, before, op))
    }

    method SetSymbol(s: nat, value: UserValue) returns (ok: bool)
      requires Valid() && s < |cfg.syms|
      modifies this`user, this`cache
      ensures Sound() && Assigned(old(user), old(cache), SetSym(s, value))
      ensures ok <==> Acceptable(cfg, s, Normal(cfg, s, value)) || Unchanged(cfg, old(user), s, Normal(cfg, s, value))
    {
      hide WellFormed, Linked, Consistent, Pruned, Swept, RemovesGone, Elsewhere, StaleFrom, StraySafe, AllRight, StillRight;
      SameEverywhere(cfg, user, cache);
      var v := Normal(cfg, s, value);
      ok := Unchanged(cfg, user, s, v) || Acceptable(cfg, s, v);
      if !Unchanged(cfg, user, s, v) && Acceptable(cfg, s, v) {
        if cfg.syms[s].choice.Some? && v == UserTri(2) {
          SelectMember(s, cfg.syms[s].choice.value);
        } else {
          SetPlain(s, v);
        }
      }
      Reassigned(cfg, old(user), user, old(cache), cache, Target(cfg, old(user), SetSym(s, value)));
    }

    /** Setting a member to y makes it the user's selection of its choice. */
    method SelectMember(s: nat, c: nat)
      requires Sound() && s < |cfg.syms| && cfg.syms[s].choice == Some(c)
      modifies this`user, this`cache
      ensures Sound() && Cleared(cfg, old(cache), cache, Some(Cho(c))) && Elsewhere(cfg, old(user), user, cache)
      ensures user == old(user).(symVal := old(user).symVal[s := UserTri(2)], choiceSel := old(user).choiceSel[c := s])
    {
      user := user.(symVal := user.symVal[s := UserTri(2)], choiceSel := user.choiceSel[c := s]);
      assert forall i | i != Sym(s) && i != Cho(c) :: SameAt(old(user), user, i);
      assert WellFormedSym(cfg, s) && Sym(s) in Dependents(cfg, Cho(c));
      RecInvalidate(Cho(c));
    }

    method SetPlain(s: nat, v: UserValue)
      requires Sound() && s < |cfg.syms|
      modifies this`user, this`cache
      ensures Sound() && Cleared(cfg, old(cache), cache, Prompted(cfg, s)) && Elsewhere(cfg, old(user), user, cache)
      ensures user == old(user).(symVal := old(user).symVal[s := v])
    {
      user := user.(symVal := user.symVal[s := v]);
      InvalidateSymbol(s, old(user));
    }

    method UnsetSymbol(s: nat)
      requires Valid() && s < |cfg.syms|
      modifies this`user, this`cache
      ensures Sound() && Assigned(old(user), old(cache), UnsetSym(s))
    {
      hide WellFormed, Linked, Consistent, Pruned, Swept, RemovesGone, Elsewhere, StaleFrom, StraySafe, AllRight, StillRight;
      UnsetElsewhere(user, s);
      SameEverywhere(cfg, user, cache);
      if s in user.symVal {
        user := user.(symVal := user.symVal - {s});
        InvalidateSymbol(s, old(user));
      } else {
        assert user.symVal - {s} == user.symVal;
      }
      Reassigned(cfg, old(user), user, old(cache), cache, Target(cfg, old(user), UnsetSym(s)));
    }

    method InvalidateSymbol(s: nat, ghost was: User)
      requires WellFormed(cfg) && Linked() && s < |cfg.syms| && forall i | i != Sym(s) :: SameAt(was, user, i)
      modifies this`cache
      ensures Cleared(cfg, old(cache), cache, Prompted(cfg, s)) && Elsewhere(cfg, was, user, cache)
    {
      if cfg.syms[s].prompts != [] {
        assert WellFormedSym(cfg, s);
        RecInvalidate(Sym(s));
      }
    }

    method InvalidateChoice(c: nat, ghost was: User)
      requires WellFormed(cfg) && Linked() && c < |cfg.choices| && forall i | i != Cho(c) :: SameAt(was, user, i)
      modifies this`cache
      ensures Cleared(cfg, old(cache), cache, Some(Cho(c))) && Elsewhere(cfg, was, user, cache)
    {
      RecInvalidate(Cho(c));
    }

    method SetChoice(c: nat, value: Tri) returns (ok: bool)
      requires Valid() && c < |cfg.choices|
      modifies this`user, this`cache
      ensures Sound() && Assigned(old(user), old(cache), SetMode(c, value))
      ensures ok <==> AcceptableMode(cfg, c, value) || SameMode(old(user), c, value)
    {
      hide WellFormed, Linked, Consistent, Pruned, Swept, RemovesGone, Elsewhere, StaleFrom, StraySafe, AllRight, StillRight;
      SameEverywhere(cfg, user, cache);
      ok := SameMode(user, c, value) || AcceptableMode(cfg, c, value);
      if SameMode(user, c, value) {
        SameModeAgain(cfg, user, c, value);
      } else if ok {
        user := user.(choiceVal := user.choiceVal[c := value]);
        InvalidateChoice(c, old(user));
      }
      Reassigned(cfg, old(user), user, old(cache), cache, Target(cfg, old(user), SetMode(c, value)));
    }

    method UnsetChoice(c: nat)
      requires Valid() && c < |cfg.choices|
      modifies this`user, this`cache
      ensures Sound() && Assigned(old(user), old(cache), UnsetMode(c))
    {
      hide WellFormed, Linked, Consistent, Pruned, Swept, RemovesGone, Elsewhere, StaleFrom, StraySafe, AllRight, StillRight;
      SameEverywhere(cfg, user, cache);
      if c in user.choiceVal || c in user.choiceSel {
        user := user.(choiceVal := user.choiceVal - {c}, choiceSel := user.choiceSel - {c});
        InvalidateChoice(c, old(user));
      } else {
        assert user.choiceVal - {c} == user.choiceVal && user.choiceSel - {c} == user.choiceSel;
      }
      Reassigned(cfg, old(user), user, old(cache), cache, Target(cfg, old(user), UnsetMode(c)));
    }

    method Perform(op: Op) returns (answer: seq<Cached>)
      requires Valid() && ValidOp(cfg, op) && SafeOp(cfg, user, op)
      modifies this`user, this`cache
      ensures Valid() && user == Apply(cfg, old(user), op)
      ensures answer == if op.Read? then [Eval(cfg, old(user), op.key)] else []
    {
      hide WellFormed, Linked, Consistent, Apply, Eval, SafeIn, Target, Cleared, StaleFrom, AllRight, StillRight;
      assert SafeIn(cfg, user, cache, op);
      answer := [];
      match op {
        case SetSym(s, v) => var _ := SetSymbol(s, v);
        case UnsetSym(s) => UnsetSymbol(s);
        case SetMode(c, v) => var _ := SetChoice(c, v);
        case UnsetMode(c) => UnsetChoice(c);
        case Read(k) =>
          var v := Attribute(k);
          answer := [v];
          ReadsKeep(cfg, user, k);
      }
    }

    /** Any interleaving of assignments and reads: each read gives what evaluation from scratch gives at that moment. */
    method Script(ops: seq<Op>) returns (answers: seq<Cached>)
      requires Valid() && (forall op | op in ops :: ValidOp(cfg, op)) && SafeRun(cfg, user, ops)
      modifies this`user, this`cache
      ensures Valid() && user == UserAfter(cfg, old(user), ops)
      ensures answers == AnswersFor(cfg, old(user), ops)
    {
      hide WellFormed, Linked, Consistent, SafeOp, SafeRun, Apply, Eval, ValidOp;
      answers := [];
      for i := 0 to |ops|
        invariant Valid() && user == UserAfter(cfg, old(user), ops[..i])
        invariant answers == AnswersFor(cfg, old(user), ops[..i])
      {
        assert ops[..i + 1][..i] == ops[..i] && ops[i] in ops;
        SafeSoFar(cfg, old(user), ops, i);
        var answer := Perform(ops[i]);
        answers := answers + answer;
      }
      assert ops[..|ops|] == ops;
    }
  }

  lemma ReadsKeep(cfg: Config, user: User, k: Key)
    requires ValidKey(cfg, k)
    ensures Apply(cfg, user, Read(k)) == user
  {
  }

  lemma {:induction false} SafeSoFar(cfg: Config, user: User, ops: seq<Op>, i: nat)
    requires WellFormed(cfg) && (forall op | op in ops :: ValidOp(cfg, op)) && SafeRun(cfg, user, ops) && i < |ops|
    ensures SafeOp(cfg, UserAfter(cfg, user, ops[..i]), ops[i])
  {
    hide WellFormed, SafeOp, UserAfter;
    var n := |ops| - 1;
    if i < n {
      SafeSoFar(cfg, user, ops[..n], i);
      assert ops[..n][..i] == ops[..i];
    }
  }

  // ---------------------------------------------------------------------------------------------
  // A choice default from outside the choice

  function Plain(name: string, t: Type, constant: Option<Tri>, choice: Option<nat>): Symbol
  {
    Symbol(name, t, constant.None? && !t.Unknown?, constant.Some?, constant, if t.Bool? then [Leaf(1)] else [], [], [],
           Leaf(2), Leaf(2), Leaf(2), choice)
  }

  /** A choice with the one member A, whose default is B outside of it; everything is visible. */
  function StrayConfig(parse: (string, nat) -> Option<int>, format: (int, nat) -> string): Config
  {
    Config(
      [Plain("MODULES", Unknown, None, None), Plain("y", Tristate, Some(2), None), Plain("n", Tristate, Some(0), None),
       Plain("A", Bool, None, Some(0)), Plain("B", Bool, None, None)],
      [Choice(Bool, false, [Leaf(1)], [ChoiceDefault(4, Leaf(1))], [3])],
      0, parse, format, [0, 0, 0, 1, 1], [1])
  }

  lemma StrayConfigOk(cfg: Config)
    requires cfg == StrayConfig(cfg.parse, cfg.format)
    ensures WellFormed(cfg) && !Covered(cfg)
    ensures |cfg.syms| == 5 && |cfg.choices| == 1 && cfg.modules == 0 && Dependents(cfg, Sym(4)) == {}
  {
    hide Mentions, WellFormedSym, WellFormedChoice, Items;
    forall i | ValidItem(cfg, i) ensures !Mentions(cfg, i, 4) { StrayMentions(cfg, i); }
    forall s | 0 <= s < |cfg.syms| ensures WellFormedSym(cfg, s) { StraySymOk(cfg, s); }
    StrayChoiceOk(cfg);
    assert Stray(cfg, 0, 4);
  }

  lemma StraySymOk(cfg: Config, s: nat)
    requires cfg == StrayConfig(cfg.parse, cfg.format) && s < |cfg.syms|
    ensures WellFormedSym(cfg, s)
  {
    hide Mentions;
    StrayMentions(cfg, Sym(s));
  }

  lemma StrayChoiceOk(cfg: Config)
    requires cfg == StrayConfig(cfg.parse, cfg.format)
    ensures WellFormedChoice(cfg, 0) && DefaultOf(cfg, 0, 4)
  {
    hide Mentions;
    StrayMentions(cfg, Cho(0));
    assert ChoiceDefault(4, Leaf(1)) in cfg.choices[0].defaults;
  }

  lemma PlainExprs(cfg: Config, s: nat)
    requires s < |cfg.syms| && exists name, t, constant, choice :: cfg.syms[s] == Plain(name, t, constant, choice)
    ensures ExprsOf(cfg, Sym(s)) == cfg.syms[s].prompts + [Leaf(2), Leaf(2), Leaf(2)]
    ensures cfg.syms[s].prompts == [Leaf(1)] || cfg.syms[s].prompts == []
  {
    assert DefaultExprs([]) == [] && RangeExprs([]) == [];
  }

  lemma StrayMentions(cfg: Config, i: Item)
    requires cfg == StrayConfig(cfg.parse, cfg.format) && ValidItem(cfg, i)
    ensures forall x: nat | Mentions(cfg, i, x) :: x == 1 || x == 2
  {
    match i
    case Sym(s) => PlainExprs(cfg, s);
    case Cho(c) => assert ExprsOf(cfg, i) == [Leaf(1), Leaf(1)];
  }

  /** Both symbols are always visible there. */
  lemma StrayVisible(cfg: Config, user: User, s: nat)
    requires cfg == StrayConfig(cfg.parse, cfg.format) && WellFormed(cfg) && WellFormedUser(cfg, user) && (s == 3 || s == 4)
    ensures Eval(cfg, user, VisKey(Sym(s))) == TriVal(2) && Eval(cfg, user, TriKey(1)) == TriVal(2)
  {
    EvalUnfolds(cfg, user, TriKey(1));
    EvalUnfolds(cfg, user, VisKey(Sym(s)));
    hide WellFormed, Eval;
    var look := Scratch(cfg, user);
    assert look(TriKey(1)) == TriVal(2);
    assert PromptsFrom(cfg, look, [Leaf(1)], 0).v == 2;
  }

  /** So the selection is the default B, but for A if the user set B to n. */
  lemma StraySelection(cfg: Config, user: User)
    requires cfg == StrayConfig(cfg.parse, cfg.format) && WellFormed(cfg) && user.choiceSel == map[]
    ensures Eval(cfg, user, SelKey(0)) == SelVal(if SetToNo(user, 4) then Some(3) else Some(4))
  {
    EvalUnfolds(cfg, user, SelKey(0));
    StrayVisible(cfg, user, 3);
    StrayVisible(cfg, user, 4);
    hide WellFormed, Eval;
    var look, ms := Scratch(cfg, user), [3];
    assert look(TriKey(1)) == look(VisKey(Sym(3))) == look(VisKey(Sym(4))) == TriVal(2);
    assert ChoiceDefaultsFrom(cfg, look, cfg.choices[0].defaults, 0).v == Some(4);
    assert VisibleFrom(user, look, ms, true, 0).v == Some(3) || 3 in user.symVal;
    assert LastVisible(look, ms, 1).v == Some(3);
  }

  lemma StraySet(cfg: Config, user: User)
    requires cfg == StrayConfig(cfg.parse, cfg.format) && user == User(map[], map[], map[])
    requires WellFormed(cfg)
    ensures var op := SetSym(4, UserTri(0));
            && ValidOp(cfg, op) && Target(cfg, user, op) == Some(Sym(4)) && !SetToNo(user, 4)
            && var w := Apply(cfg, user, op); SetToNo(w, 4) && w.choiceSel == map[]
  {
  }

  /** A member of the choice is y exactly if it is the selection. */
  lemma StrayMember(cfg: Config, user: User)
    requires cfg == StrayConfig(cfg.parse, cfg.format) && WellFormed(cfg) && user.choiceSel == map[]
    ensures Eval(cfg, user, TriKey(3)) == TriVal(if SetToNo(user, 4) then 2 else 0)
  {
    EvalUnfolds(cfg, user, TriKey(3));
    StrayVisible(cfg, user, 3);
    StraySelection(cfg, user);
    hide WellFormed, Eval;
    var look := Scratch(cfg, user);
    assert look(VisKey(Sym(3))) == TriVal(2) && look(SelKey(0)) == SelVal(if SetToNo(user, 4) then Some(3) else Some(4));
  }

  /** An invalidation of an item nothing depends on takes nothing along. */
  lemma GoneAlone(cfg: Config, cache: map<Key, Cached>, x: Item, i: Item)
    requires ValidItem(cfg, x) && Dependents(cfg, x) == {} && x != Sym(cfg.modules) && x != i
    ensures !Gone(cfg, cache, x, i)
  {
    hide Dependents, Items;
    forall p | Chain(cfg, cache, p) && p[0] == x ensures |p| == 1 {
      if |p| > 1 { ChainNext(cfg, cache, p); }
    }
  }

  lemma ChainNext(cfg: Config, cache: map<Key, Cached>, p: seq<Item>)
    requires Chain(cfg, cache, p) && |p| > 1
    ensures Dependents(cfg, p[0]) != {}
  {
    hide Dependents;
    assert p[1] in Dependents(cfg, p[0]);
  }

  lemma StillCached(cfg: Config, before: map<Key, Cached>, after: map<Key, Cached>, x: Item, k: Key)
    requires Cleared(cfg, before, after, Some(x)) && k in before && !Gone(cfg, before, x, ItemOf(k))
    ensures k in after && after[k] == before[k]
  {
    hide Gone, Swept;
  }

  /** Setting B to n leaves the selection and its member in the cache as they were, though by now they are others. */
  method StrayDefaultGoesStale(parse: (string, nat) -> Option<int>, format: (int, nat) -> string) returns (k: Kconfig)
    ensures k.Sound() && !k.Valid() && ValidKey(k.cfg, SelKey(0)) && ValidKey(k.cfg, TriKey(3)) && SelKey(0) in k.cache && TriKey(3) in k.cache
    ensures k.cache[SelKey(0)] == SelVal(Some(4)) && Eval(k.cfg, k.user, SelKey(0)) == SelVal(Some(3))
    ensures k.cache[TriKey(3)] == TriVal(0) && Eval(k.cfg, k.user, TriKey(3)) == TriVal(2)
  {
    var cfg := StrayConfig(parse, format);
    StrayConfigOk(cfg);
    hide WellFormed, Eval, StrayConfig, Apply, Kconfig.Linked, SetToNo, Target, Cleared, StaleFrom, AllRight,
         StillRight, SafeIn, Gone, Dependents, SubMap, Closed;
    k := new Kconfig(cfg);
    ghost var was := k.user;
    StraySet(cfg, was);
    StraySelection(cfg, was);
    StrayMember(cfg, was);
    var sel := k.Attribute(SelKey(0));
    var tri := k.Attribute(TriKey(3));
    ghost var before := k.cache;
    GoneAlone(cfg, before, Sym(4), Cho(0));
    GoneAlone(cfg, before, Sym(4), Sym(3));
    var ok := k.SetSymbol(4, UserTri(0));
    StillCached(cfg, before, k.cache, Sym(4), SelKey(0));
    StillCached(cfg, before, k.cache, Sym(4), TriKey(3));
    StraySelection(cfg, k.user);
    StrayMember(cfg, k.user);
  }
}
