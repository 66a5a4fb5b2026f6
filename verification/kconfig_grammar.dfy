/** The language of Kconfig expressions, apart from the parser: what is a sentence of it, and what a sentence is worth. */
module KconfigGrammar {
  import opened KconfigExpr
  import opened KconfigParse

  /** Alternatives, each a list of factors that all have to hold. */
  datatype Sentence = Just(terms: Terms) | Either(terms: Terms, others: Sentence)

  datatype Terms = One(factor: Factor) | Both(factor: Factor, more: Terms)

  datatype Factor = Name(s: nat) | Compare(op: RelOp, a: nat, b: nat) | Negated(f: Factor) | Grouped(sentence: Sentence)

  function Text(s: Sentence): seq<Token>
  {
    match s
    case Just(t) => TermsText(t)
    case Either(t, o) => TermsText(t) + [OrT] + Text(o)
  }

  function TermsText(t: Terms): seq<Token>
  {
    match t
    case One(f) => FactorText(f)
    case Both(f, m) => FactorText(f) + [AndT] + TermsText(m)
  }

  function FactorText(f: Factor): seq<Token>
  {
    match f
    case Name(s) => [Sym(s)]
    case Compare(op, a, b) => [Sym(a), Relation(op), Sym(b)]
    case Negated(g) => [NotT] + FactorText(g)
    case Grouped(s) => [Open] + Text(s) + [Close]
  }

  /** The largest of the alternatives, each of which is the least of its factors. */
  function Worth(s: Sentence, env: Env): Tri
  {
    match s
    case Just(t) => TermsWorth(t, env)
    case Either(t, o) => Max(TermsWorth(t, env), Worth(o, env))
  }

  function TermsWorth(t: Terms, env: Env): Tri
  {
    match t
    case One(f) => FactorWorth(f, env)
    case Both(f, m) => Min(FactorWorth(f, env), TermsWorth(m, env))
  }

  function FactorWorth(f: Factor, env: Env): Tri
  {
    match f
    case Name(s) => env.tri(s)
    case Compare(op, a, b) => if env.rel(op, a, b) then 2 else 0
    case Negated(g) => 2 - FactorWorth(g, env)
    case Grouped(s) => Worth(s, env)
  }

  /** A parse that stopped at these tokens, with an expression of this value. */
  predicate Gives(r: Parsed, rest: seq<Token>, env: Env, v: Tri)
  {
    r.Ok? && r.rest == rest && Value(r.e, env) == v
  }

  // ---------------------------------------------------------------------------------------------
  // Every sentence is parsed, for what it is worth

  lemma NameParses(s: nat, rest: seq<Token>)
    requires !Ahead(rest).Relation?
    ensures ParseFactor([Sym(s)] + rest) == Ok(Leaf(s), rest)
  {
    assert ([Sym(s)] + rest)[1..] == rest;
  }

  lemma CompareParses(op: RelOp, a: nat, b: nat, rest: seq<Token>)
    ensures ParseFactor([Sym(a), Relation(op), Sym(b)] + rest) == Ok(Rel(op, a, b), rest)
  {
    var ts := [Sym(a), Relation(op), Sym(b)] + rest;
    assert ts[1..][0] == Relation(op) && ts[2..][0] == Sym(b) && ts[3..] == rest;
  }

  lemma NotParses(ts: seq<Token>)
    requires ParseFactor(ts).Ok?
    ensures ParseFactor([NotT] + ts) == Ok(Not(ParseFactor(ts).e), ParseFactor(ts).rest)
  {
    assert ([NotT] + ts)[1..] == ts;
  }

  lemma GroupParses(ts: seq<Token>, rest: seq<Token>)
    requires ParseExpr(ts).Ok? && ParseExpr(ts).rest == [Close] + rest
    ensures ParseFactor([Open] + ts) == Ok(ParseExpr(ts).e, rest)
  {
    hide ParseExpr;
    assert ([Open] + ts)[1..] == ts && ([Close] + rest)[1..] == rest;
  }

  lemma {:induction false} FactorParsed(f: Factor, rest: seq<Token>, env: Env)
    requires !Ahead(rest).Relation?
    ensures Gives(ParseFactor(FactorText(f) + rest), rest, env, FactorWorth(f, env))
    decreases f, 0
  {
    hide ParseFactor, ParseExpr, Text;
    var ts := FactorText(f) + rest;
    match f
    case Name(s) => NameParses(s, rest);
    case Compare(op, a, b) => CompareParses(op, a, b, rest);
    case Negated(g) =>
      FactorParsed(g, rest, env);
      NotParses(FactorText(g) + rest);
      assert ts == [NotT] + (FactorText(g) + rest);
    case Grouped(s) =>
      SentenceParsed(s, [Close] + rest, env);
      GroupParses(Text(s) + ([Close] + rest), rest);
      assert ts == [Open] + (Text(s) + ([Close] + rest));
  }

  lemma {:induction false} TermsParsed(t: Terms, rest: seq<Token>, env: Env)
    requires !Ahead(rest).Relation? && Ahead(rest) != AndT
    ensures Gives(ParseAnd(TermsText(t) + rest), rest, env, TermsWorth(t, env))
    decreases t, 1
  {
    hide ParseFactor, FactorText;
    match t
    case One(f) => FactorParsed(f, rest, env);
    case Both(f, m) =>
      var more := TermsText(m) + rest;
      FactorParsed(f, [AndT] + more, env);
      TermsParsed(m, rest, env);
      assert TermsText(t) + rest == FactorText(f) + ([AndT] + more);
      AndStep(TermsText(t) + rest, ParseFactor(TermsText(t) + rest).e, more);
  }

  lemma {:induction false} SentenceParsed(s: Sentence, rest: seq<Token>, env: Env)
    requires !Ahead(rest).Relation? && Ahead(rest) != AndT && Ahead(rest) != OrT
    ensures Gives(ParseExpr(Text(s) + rest), rest, env, Worth(s, env))
    decreases s, 2
  {
    hide ParseAnd, TermsText;
    match s
    case Just(t) => TermsParsed(t, rest, env);
    case Either(t, o) =>
      var more := Text(o) + rest;
      TermsParsed(t, [OrT] + more, env);
      SentenceParsed(o, rest, env);
      assert Text(s) + rest == TermsText(t) + ([OrT] + more);
      OrStep(Text(s) + rest, ParseAnd(Text(s) + rest).e, more);
  }

  // ---------------------------------------------------------------------------------------------
  // What is parsed is a sentence

  lemma {:induction false} FactorFound(ts: seq<Token>) returns (f: Factor)
    requires ParseFactor(ts).Ok?
    ensures ts == FactorText(f) + ParseFactor(ts).rest
    decreases |ts|, 0
  {
    var r := ParseFactor(ts);
    match ts[0]
    case Sym(s) =>
      if !Ahead(ts[1..]).Relation? {
        f := Name(s);
      } else {
        f := Compare(ts[1].op, s, ts[2].s);
      }
    case NotT =>
      var g := FactorFound(ts[1..]);
      f := Negated(g);
    case Open =>
      var s := SentenceFound(ts[1..]);
      f := Grouped(s);
      assert ParseExpr(ts[1..]).rest == [Close] + r.rest;
  }

  lemma {:induction false} TermsFound(ts: seq<Token>) returns (t: Terms)
    requires ParseAnd(ts).Ok?
    ensures ts == TermsText(t) + ParseAnd(ts).rest
    decreases |ts|, 1
  {
    hide ParseFactor, FactorText;
    var left := ParseFactor(ts);
    var f := FactorFound(ts);
    if Ahead(left.rest) == AndT {
      var m := TermsFound(left.rest[1..]);
      assert left.rest == [AndT] + left.rest[1..];
      t := Both(f, m);
    } else {
      t := One(f);
    }
  }

  lemma {:induction false} SentenceFound(ts: seq<Token>) returns (s: Sentence)
    requires ParseExpr(ts).Ok?
    ensures ts == Text(s) + ParseExpr(ts).rest
    decreases |ts|, 2
  {
    hide ParseAnd, TermsText;
    var left := ParseAnd(ts);
    var t := TermsFound(ts);
    if Ahead(left.rest) == OrT {
      var o := SentenceFound(left.rest[1..]);
      assert left.rest == [OrT] + left.rest[1..];
      s := Either(t, o);
    } else {
      s := Just(t);
    }
  }

  /** The parser takes all of its tokens exactly if they are a sentence, and what it gives is worth what the sentence is. */
  lemma ParsesExactly(ts: seq<Token>, env: Env)
    ensures ParseExpr(ts).Ok? && ParseExpr(ts).rest == [] <==> exists s :: Text(s) == ts
    ensures forall s | Text(s) == ts :: Gives(ParseExpr(ts), [], env, Worth(s, env))
  {
    hide ParseExpr, Text, Worth;
    forall s | Text(s) == ts ensures Gives(ParseExpr(ts), [], env, Worth(s, env)) {
      SentenceParsed(s, [], env);
      assert ts + [] == ts;
    }
    if ParseExpr(ts).Ok? && ParseExpr(ts).rest == [] {
      var s := SentenceFound(ts);
      assert Text(s) == ts;
    }
  }

  /** What is printed is a sentence, worth what the expression is. */
  lemma PrintedMeans(e: Expr, env: Env) returns (s: Sentence)
    ensures Text(s) == Print(e) && Worth(s, env) == Value(e, env)
  {
    hide ParseExpr, Text, Worth, Print, Righted;
    RoundTrip(e, env);
    s := SentenceFound(Print(e));
    assert Text(s) == Print(e);
    ParsesExactly(Print(e), env);
  }
}
