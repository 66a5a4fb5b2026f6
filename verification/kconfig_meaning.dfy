/** What the attributes of symbols and choices are, in terms of each other and of the user's input. */
module KconfigMeaning {
  import opened KconfigExpr
  import opened Wrappers
  import opened KconfigEval
  import opened KconfigCache

  // ---------------------------------------------------------------------------------------------
  // Attributes, as evaluation from scratch gives them

  /** What an expression amounts to. */
  ghost function Worth(cfg: Config, user: User, e: Expr): Tri
    requires WellFormed(cfg)
  {
    Val(cfg, Scratch(cfg, user), e)
  }

  ghost function TriOf(cfg: Config, user: User, s: nat): Tri
    requires WellFormed(cfg) && s < |cfg.syms|
  {
    AsTri(Eval(cfg, user, TriKey(s)))
  }

  ghost function StrOf(cfg: Config, user: User, s: nat): string
    requires WellFormed(cfg) && s < |cfg.syms|
  {
    AsStr(Eval(cfg, user, StrKey(s)))
  }

  ghost function VisOf(cfg: Config, user: User, i: Item): Tri
    requires WellFormed(cfg) && ValidItem(cfg, i)
  {
    AsTri(Eval(cfg, user, VisKey(i)))
  }

  ghost function SelOf(cfg: Config, user: User, c: nat): Option<nat>
    requires WellFormed(cfg) && c < |cfg.choices|
  {
    AsSel(Eval(cfg, user, SelKey(c)))
  }

  ghost predicate Visible(cfg: Config, user: User, s: nat)
    requires WellFormed(cfg) && s < |cfg.syms|
  {
    VisOf(cfg, user, Sym(s)) != 0
  }

  ghost predicate ModulesOn(cfg: Config, user: User)
    requires WellFormed(cfg)
  {
    TriOf(cfg, user, cfg.modules) != 0
  }

  ghost predicate GoodUser(cfg: Config, user: User)
  {
    WellFormed(cfg) && WellFormedUser(cfg, user)
  }

  lemma Unfolds(cfg: Config, user: User, k: Key)
    requires GoodUser(cfg, user) && ValidKey(cfg, k)
    ensures Eval(cfg, user, k) == Run(cfg, user, Scratch(cfg, user), k).v
  {
    hide WellFormed, Run, Eval;
    EvalUnfolds(cfg, user, k);
  }

  // ---------------------------------------------------------------------------------------------
  // Expressions

  /** The least, the largest and the opposite of what is in it. */
  lemma ExprMeans(cfg: Config, user: User, a: Expr, b: Expr, t: Tri)
    requires WellFormed(cfg)
    ensures var x, y := Worth(cfg, user, a), Worth(cfg, user, b);
            && (t <= Worth(cfg, user, And(a, b)) <==> t <= x && t <= y)
            && (Worth(cfg, user, Or(a, b)) <= t <==> x <= t && y <= t)
            && Worth(cfg, user, Not(a)) + x == 2
  {
  }

  /** What number a symbol is in a comparison: n, m and y are numbers too, and where no type says so the text tells its base. */
  ghost function NumberOf(cfg: Config, user: User, s: nat): Option<int>
    requires WellFormed(cfg) && s < |cfg.syms|
  {
    match cfg.syms[s].origType
    case Bool => Some(TriOf(cfg, user, s))
    case Tristate => Some(TriOf(cfg, user, s))
    case Int => cfg.parse(StrOf(cfg, user, s), 10)
    case Hex => cfg.parse(StrOf(cfg, user, s), 16)
    case _ => cfg.parse(StrOf(cfg, user, s), 0)
  }

  ghost predicate ByNumber(cfg: Config, user: User, a: nat, b: nat)
    requires WellFormed(cfg) && a < |cfg.syms| && b < |cfg.syms|
  {
    && !(cfg.syms[a].origType.String? && cfg.syms[b].origType.String?)
    && NumberOf(cfg, user, a).Some? && NumberOf(cfg, user, b).Some?
  }

  lemma NumberLooked(cfg: Config, user: User, s: nat)
    requires WellFormed(cfg) && s < |cfg.syms|
    ensures ToNum(cfg, Scratch(cfg, user), s) == NumberOf(cfg, user, s)
    ensures AsStr(Scratch(cfg, user)(StrKey(s))) == StrOf(cfg, user, s)
  {
    hide WellFormed, Eval;
    ScratchIs(cfg, user, TriKey(s));
    ScratchIs(cfg, user, StrKey(s));
  }

  /** Two symbols that are numbers, not both of them strings, are compared as numbers. */
  lemma NumbersCompare(cfg: Config, user: User, a: nat, b: nat)
    requires WellFormed(cfg) && a < |cfg.syms| && b < |cfg.syms| && ByNumber(cfg, user, a, b)
    ensures var x, y := NumberOf(cfg, user, a).value, NumberOf(cfg, user, b).value;
            && (Worth(cfg, user, Rel(Equal, a, b)) == if x == y then 2 else 0)
            && (Worth(cfg, user, Rel(Unequal, a, b)) == if x != y then 2 else 0)
            && (Worth(cfg, user, Rel(Less, a, b)) == if x < y then 2 else 0)
            && (Worth(cfg, user, Rel(LessEqual, a, b)) == if x <= y then 2 else 0)
            && (Worth(cfg, user, Rel(Greater, a, b)) == if x > y then 2 else 0)
            && (Worth(cfg, user, Rel(GreaterEqual, a, b)) == if x >= y then 2 else 0)
  {
    hide WellFormed, Eval, ToNum, NumberOf, StrOf, LexLess, Scratch;
    NumberLooked(cfg, user, a);
    NumberLooked(cfg, user, b);
  }

  /** Any other two are compared as texts. */
  lemma TextsCompare(cfg: Config, user: User, a: nat, b: nat)
    requires WellFormed(cfg) && a < |cfg.syms| && b < |cfg.syms| && !ByNumber(cfg, user, a, b)
    ensures var x, y := StrOf(cfg, user, a), StrOf(cfg, user, b);
            && (Worth(cfg, user, Rel(Equal, a, b)) == if x == y then 2 else 0)
            && (Worth(cfg, user, Rel(Unequal, a, b)) == if x != y then 2 else 0)
            && (Worth(cfg, user, Rel(Less, a, b)) == if LexLess(x, y) then 2 else 0)
            && (Worth(cfg, user, Rel(LessEqual, a, b)) == if LexLess(y, x) then 0 else 2)
            && (Worth(cfg, user, Rel(Greater, a, b)) == if LexLess(y, x) then 2 else 0)
            && (Worth(cfg, user, Rel(GreaterEqual, a, b)) == if LexLess(x, y) then 0 else 2)
  {
    hide WellFormed, Eval, ToNum, NumberOf, StrOf, LexLess, Scratch;
    NumberLooked(cfg, user, a);
    NumberLooked(cfg, user, b);
    LexTotal(StrOf(cfg, user, a), StrOf(cfg, user, b));
  }

  /** The order of texts is strict and total; the first difference decides, and a text is less than any longer one it begins. */
  lemma {:induction false} LexTotal(a: string, b: string)
    ensures a == b ==> !LexLess(a, b)
    ensures a != b ==> (LexLess(a, b) <==> !LexLess(b, a))
    ensures forall n | 0 <= n < |a| && n < |b| && a[..n] == b[..n] && a[n] != b[n] :: LexLess(a, b) <==> a[n] < b[n]
    ensures |a| < |b| && b[..|a|] == a ==> LexLess(a, b)
  {
    if |a| > 0 && |b| > 0 {
      LexTotal(a[1..], b[1..]);
      assert a == [a[0]] + a[1..] && b == [b[0]] + b[1..];
      forall n | 0 <= n < |a| && n < |b| && a[..n] == b[..n] && a[n] != b[n] ensures LexLess(a, b) <==> a[n] < b[n] {
        if n > 0 {
          assert a[0] == a[..n][0] && b[0] == b[..n][0];
          assert a[1..][..n - 1] == a[..n][1..] && b[1..][..n - 1] == b[..n][1..];
          assert a[1..][n - 1] == a[n] && b[1..][n - 1] == b[n];
        }
      }
      if |a| < |b| && b[..|a|] == a {
        assert b[..|a|][0] == b[0] && b[1..][..|a| - 1] == b[..|a|][1..];
      }
    }
  }

  // ---------------------------------------------------------------------------------------------
  // Visibility

  /** top is the largest of these. */
  ghost predicate Largest(cfg: Config, user: User, es: seq<Expr>, top: Tri)
    requires WellFormed(cfg)
  {
    && (forall e | e in es :: Worth(cfg, user, e) <= top)
    && (top != 0 ==> exists e | e in es :: Worth(cfg, user, e) == top)
  }

  lemma {:induction false} PromptsLargest(cfg: Config, user: User, ps: seq<Expr>, i: nat)
    requires WellFormed(cfg) && i <= |ps|
    ensures Largest(cfg, user, ps[i..], PromptsFrom(cfg, Scratch(cfg, user), ps, i).v)
    decreases |ps| - i
  {
    hide WellFormed, Val, Scratch;
    if i < |ps| {
      PromptsLargest(cfg, user, ps, i + 1);
      LargestOf(cfg, user, ps[i], ps[i + 1..], PromptsFrom(cfg, Scratch(cfg, user), ps, i + 1).v);
      assert ps[i..] == [ps[i]] + ps[i + 1..];
    }
  }

  lemma LargestOf(cfg: Config, user: User, e: Expr, es: seq<Expr>, top: Tri)
    requires WellFormed(cfg) && Largest(cfg, user, es, top)
    ensures Largest(cfg, user, [e] + es, Max(Worth(cfg, user, e), top))
  {
    hide WellFormed, Worth;
    assert e in [e] + es && forall d | d in es :: d in [e] + es;
  }

  lemma OneLargest(cfg: Config, user: User, es: seq<Expr>, a: Tri, b: Tri)
    requires WellFormed(cfg) && Largest(cfg, user, es, a) && Largest(cfg, user, es, b)
    ensures a == b
  {
    hide WellFormed, Worth;
  }

  /** A symbol counts as a tristate unless MODULES is n or it is in a choice that is y. */
  ghost predicate TristateNow(cfg: Config, user: User, s: nat)
    requires WellFormed(cfg) && s < |cfg.syms| && (cfg.syms[s].choice.Some? ==> cfg.syms[s].choice.value < |cfg.choices|)
  {
    && cfg.syms[s].origType.Tristate? && ModulesOn(cfg, user)
    && (cfg.syms[s].choice.Some? ==> ModeOf(cfg, user, cfg.syms[s].choice.value) != 2)
  }

  /** Visibility is the largest prompt condition, but there is no m for what is not a tristate at the moment. */
  lemma VisibilityMeans(cfg: Config, user: User, s: nat, top: Tri)
    requires GoodUser(cfg, user) && s < |cfg.syms| && (cfg.syms[s].choice.Some? ==> cfg.syms[s].choice.value < |cfg.choices|)
    requires Largest(cfg, user, cfg.syms[s].prompts, top)
    ensures VisOf(cfg, user, Sym(s)) == if top == 1 && !TristateNow(cfg, user, s) then 2 else top
  {
    hide WellFormed, Eval, Largest, PromptsFrom;
    Unfolds(cfg, user, VisKey(Sym(s)));
    assert cfg.syms[s].prompts[0..] == cfg.syms[s].prompts;
    PromptsLargest(cfg, user, cfg.syms[s].prompts, 0);
    OneLargest(cfg, user, cfg.syms[s].prompts, top, PromptsFrom(cfg, Scratch(cfg, user), cfg.syms[s].prompts, 0).v);
    ModulesRead(cfg, user);
  }

  lemma ChoiceVisibilityMeans(cfg: Config, user: User, c: nat, top: Tri)
    requires GoodUser(cfg, user) && c < |cfg.choices| && Largest(cfg, user, cfg.choices[c].prompts, top)
    ensures VisOf(cfg, user, Cho(c)) == if top == 1 && !(cfg.choices[c].origType.Tristate? && ModulesOn(cfg, user)) then 2 else top
  {
    hide WellFormed, Eval, Largest, PromptsFrom;
    Unfolds(cfg, user, VisKey(Cho(c)));
    assert cfg.choices[c].prompts[0..] == cfg.choices[c].prompts;
    PromptsLargest(cfg, user, cfg.choices[c].prompts, 0);
    OneLargest(cfg, user, cfg.choices[c].prompts, top, PromptsFrom(cfg, Scratch(cfg, user), cfg.choices[c].prompts, 0).v);
    ModulesRead(cfg, user);
  }

  lemma ModulesRead(cfg: Config, user: User)
    requires WellFormed(cfg)
    ensures cfg.modules < |cfg.syms| && (AsTri(Scratch(cfg, user)(TriKey(cfg.modules))) != 0 <==> ModulesOn(cfg, user))
  {
    ScratchIs(cfg, user, TriKey(cfg.modules));
  }

  // ---------------------------------------------------------------------------------------------
  // Symbols outside of choices

  /** A bool or tristate that is neither a constant nor in a choice. */
  predicate Free(cfg: Config, s: nat)
  {
    s < |cfg.syms| && cfg.syms[s].constant.None? && IsBoolTristate(cfg.syms[s].origType) && cfg.syms[s].choice.None?
  }

  /** There is no m for a bool, without MODULES, or where an imply says y. */
  ghost function Rounded(cfg: Config, user: User, s: nat, v: Tri): Tri
    requires WellFormed(cfg) && s < |cfg.syms|
  {
    if v == 1 && (cfg.syms[s].origType.Bool? || !ModulesOn(cfg, user) || Worth(cfg, user, cfg.syms[s].weakRevDep) == 2) then 2 else v
  }

  /** n is the first default whose condition holds, or the end of the list if none does. */
  ghost predicate FirstDefault(cfg: Config, user: User, ds: seq<Default>, n: nat)
    requires WellFormed(cfg)
  {
    && n <= |ds| && (forall m | 0 <= m < n :: Worth(cfg, user, ds[m].cond) == 0)
    && (n < |ds| ==> Worth(cfg, user, ds[n].cond) != 0)
  }

  lemma {:induction false} SomeFirst(cfg: Config, user: User, ds: seq<Default>, i: nat) returns (n: nat)
    requires WellFormed(cfg) && i <= |ds| && forall m | 0 <= m < i :: Worth(cfg, user, ds[m].cond) == 0
    ensures i <= n && FirstDefault(cfg, user, ds, n)
    decreases |ds| - i
  {
    hide WellFormed, Worth;
    if i == |ds| || Worth(cfg, user, ds[i].cond) != 0 { n := i; } else { n := SomeFirst(cfg, user, ds, i + 1); }
  }

  lemma {:induction false} DefaultsAt(cfg: Config, user: User, ds: seq<Default>, i: nat, n: nat)
    requires WellFormed(cfg) && i <= n && FirstDefault(cfg, user, ds, n)
    ensures DefaultsFrom(cfg, Scratch(cfg, user), ds, i).v ==
              if n < |ds| then Min(Worth(cfg, user, ds[n].value), Worth(cfg, user, ds[n].cond)) else 0
    decreases n - i
  {
    hide WellFormed, Val, Scratch, Reads;
    assert forall m | 0 <= m < |ds| :: Worth(cfg, user, ds[m].cond) == Val(cfg, Scratch(cfg, user), ds[m].cond);
    if i < n { DefaultsAt(cfg, user, ds, i + 1, n); }
  }

  /** The user's value, if there is one that counts. */
  ghost predicate UserCounts(cfg: Config, user: User, s: nat)
    requires WellFormed(cfg) && s < |cfg.syms|
  {
    Visible(cfg, user, s) && s in user.symVal && user.symVal[s].UserTri?
  }

  /** A default, raised by an imply if the dependencies of the symbol itself hold. */
  ghost function Implied(cfg: Config, user: User, s: nat, v: Tri): Tri
    requires WellFormed(cfg) && s < |cfg.syms|
  {
    var weak := Worth(cfg, user, cfg.syms[s].weakRevDep);
    if weak > v && Worth(cfg, user, cfg.syms[s].directDep) != 0 then weak else v
  }

  /** What the symbol would be without any select: n is its first default that holds. */
  ghost function Wanted(cfg: Config, user: User, s: nat, n: nat): Tri
    requires WellFormed(cfg) && s < |cfg.syms| && FirstDefault(cfg, user, cfg.syms[s].defaults, n)
  {
    var ds := cfg.syms[s].defaults;
    if UserCounts(cfg, user, s) then
      if user.symVal[s].tri < VisOf(cfg, user, Sym(s)) then user.symVal[s].tri else VisOf(cfg, user, Sym(s))
    else if n == |ds| then Implied(cfg, user, s, 0)
    else
      var value, cond := Worth(cfg, user, ds[n].value), Worth(cfg, user, ds[n].cond);
      Implied(cfg, user, s, if value < cond then value else cond)
  }

  lemma BaseWanted(cfg: Config, user: User, s: nat, n: nat)
    requires WellFormed(cfg) && s < |cfg.syms| && FirstDefault(cfg, user, cfg.syms[s].defaults, n)
    ensures TriBase(cfg, user, Scratch(cfg, user), s).v == Wanted(cfg, user, s, n)
  {
    hide WellFormed, Eval, Reads, DefaultsFrom, Val;
    ScratchIs(cfg, user, VisKey(Sym(s)));
    DefaultsAt(cfg, user, cfg.syms[s].defaults, 0, n);
    WorthIs(cfg, user, cfg.syms[s].weakRevDep);
    WorthIs(cfg, user, cfg.syms[s].directDep);
  }

  lemma WorthIs(cfg: Config, user: User, e: Expr)
    requires WellFormed(cfg)
    ensures Worth(cfg, user, e) == Val(cfg, Scratch(cfg, user), e)
  {
  }

  /** What a symbol is: the larger of what it would be and what selects it, with m rounded where there is none. */
  lemma FreeMeans(cfg: Config, user: User, s: nat, n: nat)
    requires GoodUser(cfg, user) && Free(cfg, s) && FirstDefault(cfg, user, cfg.syms[s].defaults, n)
    ensures var rev, wanted := Worth(cfg, user, cfg.syms[s].revDep), Wanted(cfg, user, s, n);
            TriOf(cfg, user, s) == Rounded(cfg, user, s, if rev > wanted then rev else wanted)
  {
    hide WellFormed, Eval, Reads, TriBase, Wanted, Val, FirstDefault;
    Unfolds(cfg, user, TriKey(s));
    BaseWanted(cfg, user, s, n);
    ModulesRead(cfg, user);
    WorthIs(cfg, user, cfg.syms[s].revDep);
    WorthIs(cfg, user, cfg.syms[s].weakRevDep);
  }

  /** A select holds whatever else there is. */
  lemma SelectForces(cfg: Config, user: User, s: nat)
    requires GoodUser(cfg, user) && Free(cfg, s)
    ensures TriOf(cfg, user, s) >= Worth(cfg, user, cfg.syms[s].revDep)
  {
    hide WellFormed, Eval, TriOf, Worth, Wanted;
    var n := SomeFirst(cfg, user, cfg.syms[s].defaults, 0);
    FreeMeans(cfg, user, s, n);
  }

  /** Without a select a user's value counts as far as the symbol is visible. */
  lemma UserDecides(cfg: Config, user: User, s: nat)
    requires GoodUser(cfg, user) && Free(cfg, s) && UserCounts(cfg, user, s) && Worth(cfg, user, cfg.syms[s].revDep) == 0
    ensures var u, vis := user.symVal[s].tri, VisOf(cfg, user, Sym(s));
            TriOf(cfg, user, s) == Rounded(cfg, user, s, if u < vis then u else vis)
  {
    hide WellFormed, Eval, TriOf, VisOf, Worth;
    var n := SomeFirst(cfg, user, cfg.syms[s].defaults, 0);
    FreeMeans(cfg, user, s, n);
  }

  /** Without either the first default whose condition holds does, raised by what implies the symbol. */
  lemma DefaultDecides(cfg: Config, user: User, s: nat, n: nat)
    requires GoodUser(cfg, user) && Free(cfg, s) && FirstDefault(cfg, user, cfg.syms[s].defaults, n)
    requires !UserCounts(cfg, user, s) && Worth(cfg, user, cfg.syms[s].revDep) == 0
    ensures var ds, weak := cfg.syms[s].defaults, Worth(cfg, user, cfg.syms[s].weakRevDep);
            var def := if n == |ds| then 0
                       else if Worth(cfg, user, ds[n].value) < Worth(cfg, user, ds[n].cond) then Worth(cfg, user, ds[n].value)
                       else Worth(cfg, user, ds[n].cond);
            TriOf(cfg, user, s) ==
              Rounded(cfg, user, s, if weak > def && Worth(cfg, user, cfg.syms[s].directDep) != 0 then weak else def)
  {
    hide WellFormed, Eval, TriOf, Worth;
    FreeMeans(cfg, user, s, n);
  }

  lemma NeverHalf(cfg: Config, user: User, s: nat)
    requires GoodUser(cfg, user) && Free(cfg, s) && TriOf(cfg, user, s) == 1
    ensures cfg.syms[s].origType.Tristate? && ModulesOn(cfg, user) && Worth(cfg, user, cfg.syms[s].weakRevDep) != 2
  {
    hide WellFormed, Eval, TriOf, Worth, Wanted, ModulesOn;
    var n := SomeFirst(cfg, user, cfg.syms[s].defaults, 0);
    FreeMeans(cfg, user, s, n);
  }

  /** Constants are what they are, and other types are n. */
  lemma OthersMean(cfg: Config, user: User, s: nat)
    requires GoodUser(cfg, user) && s < |cfg.syms|
    ensures cfg.syms[s].constant.Some? ==> TriOf(cfg, user, s) == cfg.syms[s].constant.value
    ensures cfg.syms[s].constant.None? && !IsBoolTristate(cfg.syms[s].origType) ==> TriOf(cfg, user, s) == 0
  {
    hide WellFormed, Eval, TriFree;
    Unfolds(cfg, user, TriKey(s));
  }

  // ---------------------------------------------------------------------------------------------
  // Choices

  ghost function ModeOf(cfg: Config, user: User, c: nat): Tri
    requires WellFormed(cfg) && c < |cfg.choices|
  {
    ChoiceMode(cfg, user, Scratch(cfg, user), c).v
  }

  predicate UserMode(user: User, c: nat, v: Tri) { c in user.choiceVal && user.choiceVal[c] == v }

  /** n where it is out of sight, or optional and nobody asked for it; y if asked for and in reach, or if it is a bool now. */
  lemma ModeMeans(cfg: Config, user: User, c: nat)
    requires WellFormed(cfg) && c < |cfg.choices|
    ensures var choice, vis := cfg.choices[c], VisOf(cfg, user, Cho(c));
            var off := vis == 0 || (choice.isOptional && (c !in user.choiceVal || user.choiceVal[c] == 0));
            && (ModeOf(cfg, user, c) == 0 <==> off)
            && (ModeOf(cfg, user, c) == 2 <==>
                  !off && (|| (UserMode(user, c, 2) && vis == 2)
                           || choice.origType.Bool? || (choice.origType.Tristate? && !ModulesOn(cfg, user))))
  {
    hide WellFormed, Eval;
    ScratchIs(cfg, user, VisKey(Cho(c)));
    ModulesRead(cfg, user);
  }

  /** A member is y if it is visible and the selection, and n otherwise. */
  lemma MemberMeans(cfg: Config, user: User, s: nat, c: nat)
    requires GoodUser(cfg, user) && s < |cfg.syms| && cfg.syms[s].constant.None? && IsBoolTristate(cfg.syms[s].origType)
    requires cfg.syms[s].choice == Some(c) && c < |cfg.choices|
    ensures TriOf(cfg, user, s) == if Visible(cfg, user, s) && SelOf(cfg, user, c) == Some(s) then 2 else 0
  {
    hide WellFormed, Eval;
    Unfolds(cfg, user, TriKey(s));
    ScratchIs(cfg, user, VisKey(Sym(s)));
    ScratchIs(cfg, user, SelKey(c));
  }

  /** So no two members are y at a time. */
  lemma OneMember(cfg: Config, user: User, s: nat, t: nat, c: nat)
    requires GoodUser(cfg, user) && c < |cfg.choices| && s < |cfg.syms| && t < |cfg.syms| && s != t
    requires cfg.syms[s].choice == cfg.syms[t].choice == Some(c) && cfg.syms[s].constant.None? && cfg.syms[t].constant.None?
    requires IsBoolTristate(cfg.syms[s].origType) && IsBoolTristate(cfg.syms[t].origType)
    ensures TriOf(cfg, user, s) == 0 || TriOf(cfg, user, t) == 0
  {
    hide WellFormed, Eval, TriOf, SelOf, Visible;
    MemberMeans(cfg, user, s, c);
    MemberMeans(cfg, user, t, c);
  }

  // The selection, step by step

  ghost predicate UserSelects(cfg: Config, user: User, c: nat)
    requires GoodUser(cfg, user) && c < |cfg.choices|
  {
    c in user.choiceSel && Visible(cfg, user, user.choiceSel[c])
  }

  /** n is the first default that holds and is visible, or the end of the list. */
  ghost predicate FirstChoiceDefault(cfg: Config, user: User, c: nat, n: nat)
    requires GoodUser(cfg, user) && c < |cfg.choices|
  {
    var ds := cfg.choices[c].defaults;
    && n <= |ds| && (forall d | d in ds :: d.sym < |cfg.syms|)
    && (forall m | 0 <= m < n :: Worth(cfg, user, ds[m].cond) == 0 || !Visible(cfg, user, ds[m].sym))
    && (n < |ds| ==> Worth(cfg, user, ds[n].cond) != 0 && Visible(cfg, user, ds[n].sym))
  }

  ghost predicate Eligible(cfg: Config, user: User, s: nat, untouched: bool)
    requires WellFormed(cfg)
  {
    s < |cfg.syms| && Visible(cfg, user, s) && (untouched ==> s !in user.symVal)
  }

  /** m is the first member that is visible, and has no user value if untouched, or the end of the list. */
  ghost predicate FirstMember(cfg: Config, user: User, c: nat, untouched: bool, m: nat)
    requires GoodUser(cfg, user) && c < |cfg.choices|
  {
    var ms := cfg.choices[c].syms;
    m <= |ms| && (forall j | 0 <= j < m :: !Eligible(cfg, user, ms[j], untouched)) && (m < |ms| ==> Eligible(cfg, user, ms[m], untouched))
  }

  /** What the choice is without the user's selection: n and m are its first default and its first member that count. */
  ghost function Preferred(cfg: Config, user: User, c: nat, n: nat, m: nat): Option<nat>
    requires c < |cfg.choices|
  {
    var choice := cfg.choices[c];
    if n < |choice.defaults| then Some(choice.defaults[n].sym) else if m < |choice.syms| then Some(choice.syms[m]) else None
  }

  lemma {:induction false} ChoiceDefaultsAt(cfg: Config, user: User, c: nat, i: nat, n: nat)
    requires GoodUser(cfg, user) && c < |cfg.choices| && i <= n && FirstChoiceDefault(cfg, user, c, n)
    ensures var ds := cfg.choices[c].defaults;
            ChoiceDefaultsFrom(cfg, Scratch(cfg, user), ds, i).v == if n < |ds| then Some(ds[n].sym) else None
    decreases n - i
  {
    hide WellFormed, Eval, Val, Reads;
    var ds := cfg.choices[c].defaults;
    if i < |ds| {
      assert ds[i] in ds;
      ScratchIs(cfg, user, VisKey(Sym(ds[i].sym)));
      WorthIs(cfg, user, ds[i].cond);
    }
    if i < n { ChoiceDefaultsAt(cfg, user, c, i + 1, n); }
  }

  lemma MembersValid(cfg: Config, c: nat)
    requires WellFormed(cfg) && c < |cfg.choices|
    ensures forall s | s in cfg.choices[c].syms :: s < |cfg.syms|
  {
    assert WellFormedChoice(cfg, c);
  }

  lemma {:induction false} MembersAt(cfg: Config, user: User, c: nat, untouched: bool, i: nat, m: nat)
    requires GoodUser(cfg, user) && c < |cfg.choices| && i <= m && FirstMember(cfg, user, c, untouched, m)
    ensures var ms := cfg.choices[c].syms;
            VisibleFrom(user, Scratch(cfg, user), ms, untouched, i).v == if m < |ms| then Some(ms[m]) else None
    decreases m - i
  {
    hide WellFormed, Eval;
    var ms := cfg.choices[c].syms;
    MembersValid(cfg, c);
    if i < |ms| {
      assert ms[i] in ms;
      ScratchIs(cfg, user, VisKey(Sym(ms[i])));
    }
    if i < m { MembersAt(cfg, user, c, untouched, i + 1, m); }
  }

  lemma {:induction false} LastAt(cfg: Config, user: User, c: nat, i: nat)
    requires GoodUser(cfg, user) && c < |cfg.choices| && i <= |cfg.choices[c].syms|
    ensures var ms := cfg.choices[c].syms;
            var last := LastVisible(Scratch(cfg, user), ms, i).v;
            && (last.None? ==> forall j | 0 <= j < i :: !Eligible(cfg, user, ms[j], false))
            && (last.Some? ==> exists l | 0 <= l < i :: ms[l] == last.value && IsLast(cfg, user, ms, l, i))
  {
    hide WellFormed, Eval;
    var ms := cfg.choices[c].syms;
    MembersValid(cfg, c);
    if i > 0 {
      assert ms[i - 1] in ms;
      ScratchIs(cfg, user, VisKey(Sym(ms[i - 1])));
      if Eligible(cfg, user, ms[i - 1], false) {
        assert IsLast(cfg, user, ms, i - 1, i);
      } else {
        LastAt(cfg, user, c, i - 1);
        var last := LastVisible(Scratch(cfg, user), ms, i - 1).v;
        if last.Some? {
          var l :| 0 <= l < i - 1 && ms[l] == last.value && IsLast(cfg, user, ms, l, i - 1);
          assert IsLast(cfg, user, ms, l, i);
        }
      }
    }
  }

  /** l is visible, and none after it. */
  ghost predicate IsLast(cfg: Config, user: User, ms: seq<nat>, l: nat, i: nat)
    requires WellFormed(cfg)
  {
    l < i <= |ms| && Eligible(cfg, user, ms[l], false) && forall j | l < j < i :: !Eligible(cfg, user, ms[j], false)
  }

  lemma SelectionRuns(cfg: Config, user: User, c: nat)
    requires GoodUser(cfg, user) && c < |cfg.choices|
    ensures SelOf(cfg, user, c) == Selection(cfg, user, Scratch(cfg, user), c).v
    ensures UserSelects(cfg, user, c) <==> c in user.choiceSel && AsTri(Scratch(cfg, user)(VisKey(Sym(user.choiceSel[c])))) != 0
  {
    hide WellFormed, Eval, Selection;
    Unfolds(cfg, user, SelKey(c));
    if c in user.choiceSel { ScratchIs(cfg, user, VisKey(Sym(user.choiceSel[c]))); }
  }

  /** First: the user's selection, if it is visible. */
  lemma SelectedByUser(cfg: Config, user: User, c: nat)
    requires GoodUser(cfg, user) && c < |cfg.choices| && UserSelects(cfg, user, c)
    ensures SelOf(cfg, user, c) == Some(user.choiceSel[c])
  {
    hide WellFormed, Eval, FromDefaults, VisibleFrom, LastVisible;
    SelectionRuns(cfg, user, c);
  }

  lemma PreferredRuns(cfg: Config, user: User, c: nat, n: nat, m: nat)
    requires GoodUser(cfg, user) && c < |cfg.choices| && FirstChoiceDefault(cfg, user, c, n) && FirstMember(cfg, user, c, false, m)
    ensures FromDefaults(cfg, user, Scratch(cfg, user), c).v == Preferred(cfg, user, c, n, m)
  {
    hide WellFormed, Eval, ChoiceDefaultsFrom, VisibleFrom;
    ChoiceDefaultsAt(cfg, user, c, 0, n);
    MembersAt(cfg, user, c, false, 0, m);
  }

  /** Second: the first default that holds and is visible, else the first visible member, but not if the user set it to n. */
  lemma SelectedByDefault(cfg: Config, user: User, c: nat, n: nat, m: nat)
    requires GoodUser(cfg, user) && c < |cfg.choices| && !UserSelects(cfg, user, c)
    requires FirstChoiceDefault(cfg, user, c, n) && FirstMember(cfg, user, c, false, m)
    requires Preferred(cfg, user, c, n, m).Some? && !SetToNo(user, Preferred(cfg, user, c, n, m).value)
    ensures SelOf(cfg, user, c) == Preferred(cfg, user, c, n, m)
  {
    hide WellFormed, Eval, FromDefaults, VisibleFrom, LastVisible, Preferred;
    SelectionRuns(cfg, user, c);
    PreferredRuns(cfg, user, c, n, m);
  }

  ghost predicate NothingPreferred(cfg: Config, user: User, c: nat, n: nat, m: nat)
    requires c < |cfg.choices|
  {
    Preferred(cfg, user, c, n, m).None? || SetToNo(user, Preferred(cfg, user, c, n, m).value)
  }

  /** Third: the first visible member the user has not touched. */
  lemma SelectedUntouched(cfg: Config, user: User, c: nat, n: nat, m: nat, k: nat)
    requires GoodUser(cfg, user) && c < |cfg.choices| && !UserSelects(cfg, user, c) && NothingPreferred(cfg, user, c, n, m)
    requires FirstChoiceDefault(cfg, user, c, n) && FirstMember(cfg, user, c, false, m)
    requires FirstMember(cfg, user, c, true, k) && k < |cfg.choices[c].syms|
    ensures SelOf(cfg, user, c) == Some(cfg.choices[c].syms[k])
  {
    hide WellFormed, Eval, FromDefaults, VisibleFrom, LastVisible, Preferred;
    SelectionRuns(cfg, user, c);
    PreferredRuns(cfg, user, c, n, m);
    MembersAt(cfg, user, c, true, 0, k);
  }

  /** Last: the last visible member, and none exactly if none is visible. */
  lemma SelectedLast(cfg: Config, user: User, c: nat, n: nat, m: nat)
    requires GoodUser(cfg, user) && c < |cfg.choices| && !UserSelects(cfg, user, c) && NothingPreferred(cfg, user, c, n, m)
    requires FirstChoiceDefault(cfg, user, c, n) && FirstMember(cfg, user, c, false, m)
    requires FirstMember(cfg, user, c, true, |cfg.choices[c].syms|)
    ensures var ms := cfg.choices[c].syms;
            if SelOf(cfg, user, c).None? then forall j | 0 <= j < |ms| :: !Eligible(cfg, user, ms[j], false)
            else exists l | 0 <= l < |ms| :: ms[l] == SelOf(cfg, user, c).value && IsLast(cfg, user, ms, l, |ms|)
  {
    hide WellFormed, Eval, FromDefaults, VisibleFrom, LastVisible, Preferred, IsLast, Eligible;
    SelectionRuns(cfg, user, c);
    PreferredRuns(cfg, user, c, n, m);
    MembersAt(cfg, user, c, true, 0, |cfg.choices[c].syms|);
    LastAt(cfg, user, c, |cfg.choices[c].syms|);
  }

  // ---------------------------------------------------------------------------------------------
  // Texts

  /** Bool and tristate symbols by name of their value, undefined ones by their own name. */
  lemma NamesMean(cfg: Config, user: User, s: nat)
    requires GoodUser(cfg, user) && s < |cfg.syms|
    ensures IsBoolTristate(cfg.syms[s].origType) ==>
              var t := StrOf(cfg, user, s);
              match TriOf(cfg, user, s) case 0 => t == "n" case 1 => t == "m" case _ => t == "y"
    ensures cfg.syms[s].origType.Unknown? ==> StrOf(cfg, user, s) == cfg.syms[s].name
  {
    hide WellFormed, Eval, SymNumText;
    Unfolds(cfg, user, StrKey(s));
    ScratchIs(cfg, user, TriKey(s));
  }

  lemma {:induction false} TextsAt(cfg: Config, user: User, ds: seq<Default>, i: nat, n: nat)
    requires WellFormed(cfg) && i <= n && FirstDefault(cfg, user, ds, n) && forall d | d in ds :: d.value.Leaf?
    ensures StrDefaultsFrom(cfg, Scratch(cfg, user), ds, i).v ==
              if n < |ds| then Some(AsStr(Scratch(cfg, user)(StrKey(ds[n].value.sym)))) else None
    decreases n - i
  {
    hide WellFormed, Val, Scratch, Reads;
    assert forall m | 0 <= m < |ds| :: Worth(cfg, user, ds[m].cond) == Val(cfg, Scratch(cfg, user), ds[m].cond);
    if i < n { TextsAt(cfg, user, ds, i + 1, n); }
  }

  /** The text of the n-th default, or this if there is none. */
  ghost function DefaultText(cfg: Config, user: User, s: nat, n: nat, none: string): string
    requires WellFormed(cfg) && s < |cfg.syms| && forall d | d in cfg.syms[s].defaults :: d.value.Leaf?
  {
    var ds := cfg.syms[s].defaults;
    if n < |ds| && ds[n].value.sym < |cfg.syms| then StrOf(cfg, user, ds[n].value.sym) else none
  }

  lemma LeavesValid(cfg: Config, s: nat)
    requires WellFormed(cfg) && s < |cfg.syms| && cfg.syms[s].isDefined
    ensures forall d | d in cfg.syms[s].defaults && d.value.Leaf? :: d.value.sym < |cfg.syms|
    ensures forall r | r in cfg.syms[s].ranges :: r.low < |cfg.syms| && r.high < |cfg.syms|
  {
    assert WellFormedSym(cfg, s);
    var ds, rs := cfg.syms[s].defaults, cfg.syms[s].ranges;
    forall d | d in ds && d.value.Leaf? ensures Mentions(cfg, Sym(s), d.value.sym) {
      var n :| 0 <= n < |ds| && ds[n] == d;
      DefaultListed(ds, n);
      ExprMentioned(cfg, Sym(s), d.value);
      assert d.value.sym in Leaves(d.value);
    }
    forall r | r in rs ensures Mentions(cfg, Sym(s), r.low) && Mentions(cfg, Sym(s), r.high) {
      var n :| 0 <= n < |rs| && rs[n] == r;
      RangeListed(rs, n);
      ExprMentioned(cfg, Sym(s), Leaf(r.low));
      ExprMentioned(cfg, Sym(s), Leaf(r.high));
      assert r.low in Leaves(Leaf(r.low)) && r.high in Leaves(Leaf(r.high));
    }
  }

  lemma DefaultTextIs(cfg: Config, user: User, s: nat, n: nat, none: string)
    requires WellFormed(cfg) && s < |cfg.syms| && cfg.syms[s].isDefined && FirstDefault(cfg, user, cfg.syms[s].defaults, n)
    requires forall d | d in cfg.syms[s].defaults :: d.value.Leaf?
    ensures var def := StrDefaultsFrom(cfg, Scratch(cfg, user), cfg.syms[s].defaults, 0).v;
            && (def.Some? <==> n < |cfg.syms[s].defaults|)
            && DefaultText(cfg, user, s, n, none) == if def.Some? then def.value else none
  {
    hide WellFormed, Eval;
    var ds := cfg.syms[s].defaults;
    TextsAt(cfg, user, ds, 0, n);
    LeavesValid(cfg, s);
    if n < |ds| {
      assert ds[n] in ds;
      ScratchIs(cfg, user, StrKey(ds[n].value.sym));
    }
  }

  /** A string is what the user typed, if it is visible, or its first default that holds, or empty. */
  lemma StringMeans(cfg: Config, user: User, s: nat, n: nat)
    requires GoodUser(cfg, user) && s < |cfg.syms| && cfg.syms[s].origType.String? && cfg.syms[s].isDefined
    requires FirstDefault(cfg, user, cfg.syms[s].defaults, n) && forall d | d in cfg.syms[s].defaults :: d.value.Leaf?
    ensures StrOf(cfg, user, s) ==
              if Visible(cfg, user, s) && s in user.symVal && user.symVal[s].UserStr? then user.symVal[s].str
              else DefaultText(cfg, user, s, n, "")
  {
    hide WellFormed, Eval, StrDefaultsFrom, FirstDefault, DefaultText;
    Unfolds(cfg, user, StrKey(s));
    ScratchIs(cfg, user, VisKey(Sym(s)));
    DefaultTextIs(cfg, user, s, n, "");
  }

  /** n is the first range whose condition holds, or the end of the list. */
  ghost predicate FirstRange(cfg: Config, user: User, rs: seq<Range>, n: nat)
    requires WellFormed(cfg)
  {
    && n <= |rs| && (forall m | 0 <= m < n :: Worth(cfg, user, rs[m].cond) == 0)
    && (n < |rs| ==> Worth(cfg, user, rs[n].cond) != 0)
  }

  lemma {:induction false} RangesAt(cfg: Config, user: User, rs: seq<Range>, base: nat, i: nat, n: nat)
    requires WellFormed(cfg) && i <= n && FirstRange(cfg, user, rs, n)
    ensures RangesFrom(cfg, Scratch(cfg, user), rs, base, i).v ==
              if n < |rs| then
                Some((Number(cfg, AsStr(Scratch(cfg, user)(StrKey(rs[n].low))), base),
                      Number(cfg, AsStr(Scratch(cfg, user)(StrKey(rs[n].high))), base)))
              else None
    decreases n - i
  {
    hide WellFormed, Val, Scratch, Reads, Number;
    assert forall m | 0 <= m < |rs| :: Worth(cfg, user, rs[m].cond) == Val(cfg, Scratch(cfg, user), rs[m].cond);
    if i < n { RangesAt(cfg, user, rs, base, i + 1, n); }
  }

  /** What an int or hex symbol would be without a range: text and number. */
  ghost function Unbounded(cfg: Config, user: User, s: nat, n: nat): (string, int)
    requires WellFormed(cfg) && s < |cfg.syms| && forall d | d in cfg.syms[s].defaults :: d.value.Leaf?
  {
    var base := if cfg.syms[s].origType.Hex? then 16 else 10;
    if Visible(cfg, user, s) && s in user.symVal && user.symVal[s].UserStr? && user.symVal[s].str != "" then
      (user.symVal[s].str, Number(cfg, user.symVal[s].str, base))
    else if n < |cfg.syms[s].defaults| then
      var text := DefaultText(cfg, user, s, n, ""); (text, Number(cfg, text, base))
    else (if cfg.syms[s].origType.Hex? then "0x0" else "0", 0)
  }

  ghost function Bound(cfg: Config, user: User, base: nat, s: nat): int
    requires WellFormed(cfg)
  {
    if s < |cfg.syms| then Number(cfg, StrOf(cfg, user, s), base) else 0
  }

  /** An int or hex symbol is that text unless the first range that holds excludes it: then it is the bound it is beyond. */
  lemma NumberMeans(cfg: Config, user: User, s: nat, n: nat, m: nat)
    requires GoodUser(cfg, user) && s < |cfg.syms| && cfg.syms[s].isDefined && (cfg.syms[s].origType.Int? || cfg.syms[s].origType.Hex?)
    requires forall d | d in cfg.syms[s].defaults :: d.value.Leaf?
    requires FirstDefault(cfg, user, cfg.syms[s].defaults, n) && FirstRange(cfg, user, cfg.syms[s].ranges, m)
    ensures var base := if cfg.syms[s].origType.Hex? then 16 else 10;
            var (text, number) := Unbounded(cfg, user, s, n);
            var rs := cfg.syms[s].ranges;
            if m == |rs| then StrOf(cfg, user, s) == text
            else
              var low, high := Bound(cfg, user, base, rs[m].low), Bound(cfg, user, base, rs[m].high);
              && (low <= number <= high ==> StrOf(cfg, user, s) == text)
              && (number < low ==> StrOf(cfg, user, s) == cfg.format(low, base))
              && (low <= number && high < number ==> StrOf(cfg, user, s) == cfg.format(high, base))
  {
    hide WellFormed, Eval, StrDefaultsFrom, RangesFrom, DefaultText, Number;
    Unfolds(cfg, user, StrKey(s));
    ScratchIs(cfg, user, VisKey(Sym(s)));
    DefaultTextIs(cfg, user, s, n, "");
    var rs, base := cfg.syms[s].ranges, Base(cfg.syms[s].origType);
    RangesAt(cfg, user, rs, base, 0, m);
    LeavesValid(cfg, s);
    if m < |rs| {
      assert rs[m] in rs;
      ScratchIs(cfg, user, StrKey(rs[m].low));
      ScratchIs(cfg, user, StrKey(rs[m].high));
    }
  }

  // ---------------------------------------------------------------------------------------------
  // What an assignment does

  /** Nothing below a symbol changes with what the user gives it, nor does its own visibility. */
  lemma {:induction false} BelowSame(cfg: Config, u: User, w: User, s: nat, k: Key)
    requires GoodUser(cfg, u) && WellFormedUser(cfg, w) && s < |cfg.syms| && ValidKey(cfg, k)
    requires (forall i | i != Sym(s) :: SameAt(u, w, i)) && Rank(cfg, k) <= Rank(cfg, VisKey(Sym(s)))
    ensures Scratch(cfg, u)(k) == Scratch(cfg, w)(k)
    decreases Rank(cfg, k)
  {
    hide WellFormed, Run, Eval, Scratch, SameAt, Rank, Seen;
    forall r | r in Seen(cfg, u, k) ensures Scratch(cfg, u)(r) == Scratch(cfg, w)(r) && r != VisKey(Sym(s)) {
      ReadRanks(cfg, u, k, r);
      BelowSame(cfg, u, w, s, r);
    }
    StepAgrees(cfg, u, w, k);
    ScratchIs(cfg, u, k);
    ScratchIs(cfg, w, k);
  }

  lemma MentionedBelow(cfg: Config, u: User, w: User, s: nat, e: Expr)
    requires GoodUser(cfg, u) && WellFormedUser(cfg, w) && s < |cfg.syms| && cfg.syms[s].isDefined && e in ExprsOf(cfg, Sym(s))
    requires forall i | i != Sym(s) :: SameAt(u, w, i)
    ensures Worth(cfg, u, e) == Worth(cfg, w, e)
  {
    hide Eval, Scratch, SameAt, Val;
    ReadsLeaves(cfg, Scratch(cfg, u), e);
    ExprMentioned(cfg, Sym(s), e);
    assert WellFormedSym(cfg, s);
    forall r | r in Reads(cfg, Scratch(cfg, u), e) ensures Scratch(cfg, u)(r) == Scratch(cfg, w)(r) {
      BelowSame(cfg, u, w, s, r);
    }
    ExprAgree(cfg, Scratch(cfg, u), Scratch(cfg, w), e);
  }

  /** The texts that stand for values. */
  predicate Spells(text: string, v: Tri)
  {
    (text == "n" && v == 0) || (text == "m" && v == 1) || (text == "y" && v == 2)
  }

  lemma SetChanges(cfg: Config, user: User, s: nat, value: UserValue, v: Tri)
    requires WellFormed(cfg) && Free(cfg, s) && (value == UserTri(v) || (value.UserStr? && Spells(value.str, v)))
    requires v == 1 ==> cfg.syms[s].origType.Tristate?
    ensures var w := AfterSet(cfg, user, s, value);
            && s in w.symVal && w.symVal[s] == UserTri(v) && (forall i | i != Sym(s) :: SameAt(user, w, i))
            && (WellFormedUser(cfg, user) ==> WellFormedUser(cfg, w))
  {
  }

  /** A symbol that is visible and not selected reads as what it was set to, by name or as a value, as far as it may go. */
  lemma SetReads(cfg: Config, user: User, s: nat, value: UserValue, v: Tri)
    requires GoodUser(cfg, user) && Free(cfg, s) && (value == UserTri(v) || (value.UserStr? && Spells(value.str, v)))
    requires (v == 1 ==> cfg.syms[s].origType.Tristate?) && cfg.syms[s].isDefined
    requires Visible(cfg, user, s) && Worth(cfg, user, cfg.syms[s].revDep) == 0
    ensures var w, vis := AfterSet(cfg, user, s, value), VisOf(cfg, user, Sym(s));
            GoodUser(cfg, w) && TriOf(cfg, w, s) == Rounded(cfg, w, s, if v < vis then v else vis)
  {
    var w := AfterSet(cfg, user, s, value);
    SetChanges(cfg, user, s, value, v);
    assert cfg.syms[s].revDep in ExprsOf(cfg, Sym(s));
    MentionedBelow(cfg, user, w, s, cfg.syms[s].revDep);
    BelowSame(cfg, user, w, s, VisKey(Sym(s)));
    ScratchIs(cfg, user, VisKey(Sym(s)));
    ScratchIs(cfg, w, VisKey(Sym(s)));
    hide WellFormed, Eval, Worth, TriOf, AfterSet;
    UserDecides(cfg, w, s);
  }

  /** And so does a read after it. */
  method SetThenRead(k: Kconfig, s: nat, text: string, ghost v: Tri) returns (read: Cached)
    requires k.Valid() && Free(k.cfg, s) && k.cfg.syms[s].isDefined && Spells(text, v) && (v == 1 ==> k.cfg.syms[s].origType.Tristate?)
    requires SafeIn(k.cfg, k.user, k.cache, SetSym(s, UserStr(text)))
    requires Visible(k.cfg, k.user, s) && Worth(k.cfg, k.user, k.cfg.syms[s].revDep) == 0
    modifies k`user, k`cache
    ensures k.Valid() && read.TriVal?
    ensures var vis := old(VisOf(k.cfg, k.user, Sym(s))); read.tri == Rounded(k.cfg, k.user, s, if v < vis then v else vis)
  {
    hide WellFormed, Consistent, Eval, Worth, AfterSet, SafeIn, Target, Cleared, StaleFrom, AllRight, StillRight, Kconfig.Linked;
    SetReads(k.cfg, k.user, s, UserStr(text), v);
    ReadsTri(k.cfg, AfterSet(k.cfg, k.user, s, UserStr(text)), s);
    var ok := k.SetSymbol(s, UserStr(text));
    read := k.Attribute(TriKey(s));
  }

  lemma ReadsTri(cfg: Config, user: User, s: nat)
    requires GoodUser(cfg, user) && s < |cfg.syms|
    ensures Eval(cfg, user, TriKey(s)).TriVal?
  {
    hide WellFormed, Eval, SymTri;
    Unfolds(cfg, user, TriKey(s));
  }

  /** A member set to y is the selection while it is visible: and so it is y. */
  lemma MemberChosen(cfg: Config, user: User, s: nat, c: nat)
    requires GoodUser(cfg, user) && s < |cfg.syms| && cfg.syms[s].choice == Some(c) && c < |cfg.choices|
    requires cfg.syms[s].constant.None? && IsBoolTristate(cfg.syms[s].origType)
    requires var w := AfterSet(cfg, user, s, UserStr("y")); GoodUser(cfg, w) && Visible(cfg, w, s)
    ensures var w := AfterSet(cfg, user, s, UserStr("y"));
            SelOf(cfg, w, c) == Some(s) && TriOf(cfg, w, s) == 2
  {
    var w := AfterSet(cfg, user, s, UserStr("y"));
    assert c in w.choiceSel && w.choiceSel[c] == s;
    hide WellFormed, Eval, AfterSet;
    SelectedByUser(cfg, w, c);
    MemberMeans(cfg, w, s, c);
  }
}
