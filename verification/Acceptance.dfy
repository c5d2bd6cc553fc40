/** Which expressions `Bind` accepts, said of the expression: each comparison against the schema
    entry of its selector, nesting as a path through the tree, comparisons and disjunctions as
    symbols of the text (rsql/schema.go:66-191). */
module Acceptance {
  import opened Results
  import opened Numbers
  import opened Syntax
  import opened Lexing
  import opened Grammar
  import opened Parsing
  import opened Schemas

  // ----- comparisons -----

  /** The comparisons of a tree, from left to right. */
  function Comparisons(n: Node): seq<Node> {
    match n
    case And(ns) => ComparisonsOf(ns)
    case Or(ns) => ComparisonsOf(ns)
    case Comparison(_, _, _) => [n]
  }

  function ComparisonsOf(ns: seq<Node>): seq<Node> {
    if ns == [] then [] else Comparisons(ns[0]) + ComparisonsOf(ns[1..])
  }

  /** The operator list of the field, or else what its kind can do: equality for all kinds,
      lists for all but bool, order for int. */
  predicate Offers(f: Field, op: Operator) {
    if f.ops != [] then op in f.ops
    else
      match op
      case OpEq | OpNeq => true
      case OpIn | OpNotIn => f.kind != KindBool
      case OpGt | OpGe | OpLt | OpLe => f.kind == KindInt
  }

  /** The text is listed if the field lists any, and it is a text of the kind. */
  predicate Takes(f: Field, text: string) {
    && (f.accepted == [] || text in f.accepted)
    && match f.kind
       case KindString => true
       case KindInt => ParseInt(text).Ok?
       case KindBool =>
         text in ["1", "t", "T", "TRUE", "true", "True", "0", "f", "F", "FALSE", "false", "False"]
  }

  predicate Fits(n: Node, s: Schema) {
    && n.Comparison?
    && n.selector in s
    && Offers(s[n.selector], n.op)
    && (|n.args| == 1 || n.op == OpIn || n.op == OpNotIn)
    && forall a | a in n.args :: Takes(s[n.selector], a)
  }

  lemma OffersIsAllowed(f: Field, op: Operator)
    ensures Offers(f, op) <==> op in Allowed(f)
  {
  }

  lemma TakesIsCoercible(f: Field, text: string)
    ensures Takes(f, text) <==> Coerce(text, f).Ok?
  {
    hide ParseInt, ParseBool;
    ParseBoolTable();
  }

  lemma FitsIsAdmissible(n: Node, s: Schema)
    requires n.Comparison?
    ensures Fits(n, s) <==> Admissible(n, s)
  {
    hide Offers, Takes, Allowed, Coerce;
    if n.selector in s {
      OffersIsAllowed(s[n.selector], n.op);
      forall a | a in n.args { TakesIsCoercible(s[n.selector], a); }
    }
  }

  lemma {:induction false} AdmissibleIff(n: Node, s: Schema)
    ensures Admissible(n, s) <==> forall c | c in Comparisons(n) :: Fits(c, s)
  {
    hide Fits;
    match n
    case And(ns) => AllAdmissibleIff(ns, s);
    case Or(ns) => AllAdmissibleIff(ns, s);
    case Comparison(_, _, _) => FitsIsAdmissible(n, s);
  }

  lemma {:induction false} AllAdmissibleIff(ns: seq<Node>, s: Schema)
    ensures (forall m | m in ns :: Admissible(m, s)) <==> forall c | c in ComparisonsOf(ns) :: Fits(c, s)
  {
    hide Fits, Admissible, Comparisons;
    if ns != [] {
      AdmissibleIff(ns[0], s);
      AllAdmissibleIff(ns[1..], s);
      assert forall m :: m in ns <==> m == ns[0] || m in ns[1..];
    }
  }

  // ----- nesting -----

  /** A path of `k` nodes, each an operand of the one before. */
  predicate Deep(n: Node, k: int) {
    k <= 1 || (!n.Comparison? && exists m | m in n.nodes :: Deep(m, k - 1))
  }

  lemma {:induction false} DeepIff(n: Node, k: int)
    ensures Deep(n, k) <==> SizeOf(n).height >= k
  {
    if k > 1 && !n.Comparison? {
      HighIff(n.nodes, k - 1);
    }
  }

  lemma {:induction false} HighIff(ns: seq<Node>, k: int)
    requires k >= 1
    ensures SizeOfAll(ns).height >= k <==> exists m | m in ns :: Deep(m, k)
  {
    hide SizeOf, Deep;
    if ns != [] {
      DeepIff(ns[0], k);
      HighIff(ns[1..], k);
      assert forall m :: m in ns <==> m == ns[0] || m in ns[1..];
    }
  }

  // ----- counting symbols -----

  function Count(ts: seq<Symbol>, counts: Symbol -> bool): nat {
    if ts == [] then 0 else (if counts(ts[0]) then 1 else 0) + Count(ts[1..], counts)
  }

  predicate IsOp(sym: Symbol) { sym.TokOp? }

  predicate IsAnd(sym: Symbol) { sym == TokAnd }

  lemma {:induction false} CountConcat(a: seq<Symbol>, b: seq<Symbol>, counts: Symbol -> bool)
    ensures Count(a + b, counts) == Count(a, counts) + Count(b, counts)
  {
    if a == [] {
      assert a + b == b;
    } else {
      CountConcat(a[1..], b, counts);
      assert (a + b)[1..] == a[1..] + b;
    }
  }

  lemma CountOne(sym: Symbol, counts: Symbol -> bool)
    ensures Count([sym], counts) == if counts(sym) then 1 else 0
  {
  }

  /** The operators among the symbols, and the ';'. */
  function Tally(ts: seq<Symbol>): (nat, nat) {
    (Count(ts, IsOp), Count(ts, IsAnd))
  }

  function Plus(a: (nat, nat), b: (nat, nat)): (nat, nat) {
    (a.0 + b.0, a.1 + b.1)
  }

  lemma TallyConcat(a: seq<Symbol>, b: seq<Symbol>)
    ensures Tally(a + b) == Plus(Tally(a), Tally(b))
  {
    CountConcat(a, b, IsOp);
    CountConcat(a, b, IsAnd);
  }

  lemma TallyOne(sym: Symbol)
    ensures Tally([sym]) == (if sym.TokOp? then 1 else 0, if sym == TokAnd then 1 else 0)
  {
    CountOne(sym, IsOp);
    CountOne(sym, IsAnd);
  }

  lemma TallyTwo(a: Symbol, b: Symbol)
    ensures Tally([a, b]) == Plus(Tally([a]), Tally([b]))
    ensures Tally([a]) == (if a.TokOp? then 1 else 0, if a == TokAnd then 1 else 0)
    ensures Tally([b]) == (if b.TokOp? then 1 else 0, if b == TokAnd then 1 else 0)
  {
    hide Tally, Plus;
    assert [a] + [b] == [a, b];
    TallyConcat([a], [b]);
    TallyOne(a);
    TallyOne(b);
  }

  function Measured(z: Size): (int, int) {
    (z.leaves, z.ands)
  }

  lemma {:induction false} ValuesTally(vs: seq<string>, k: nat)
    requires k <= |vs|
    ensures Tally(YieldValues(vs, k)) == (0, 0)
    decreases |vs| - k
  {
    hide Tally;
    if k < |vs| {
      ValuesTally(vs, k + 1);
      TallyTwo(TokOr, TokValue(vs[k]));
      TallyConcat([TokOr, TokValue(vs[k])], YieldValues(vs, k + 1));
    } else {
      NothingTallies();
    }
  }

  lemma NothingTallies()
    ensures Tally([]) == (0, 0)
  {
  }

  lemma ArgumentsTally(args: Arguments)
    requires args.Listed? ==> args.values != []
    ensures Tally(YieldArguments(args)) == (0, 0)
  {
    hide Tally;
    if args.Single? {
      TallyOne(TokValue(args.value));
    } else {
      var vs := args.values;
      ValuesTally(vs, 1);
      TallyTwo(TokLParen, TokValue(vs[0]));
      TallyOne(TokRParen);
      TallyConcat([TokLParen, TokValue(vs[0])], YieldValues(vs, 1));
      TallyConcat([TokLParen, TokValue(vs[0])] + YieldValues(vs, 1), [TokRParen]);
    }
  }

  lemma BracketsTally(ts: seq<Symbol>)
    ensures Tally([TokLParen] + ts + [TokRParen]) == Tally(ts)
  {
    hide Tally;
    TallyOne(TokLParen);
    TallyOne(TokRParen);
    TallyConcat([TokLParen], ts);
    TallyConcat([TokLParen] + ts, [TokRParen]);
  }

  lemma TestTally(selector: string, opText: string, args: Arguments)
    requires args.Listed? ==> args.values != []
    ensures Tally([TokValue(selector), TokOp(opText)] + YieldArguments(args)) == (1, 0)
  {
    hide Tally, YieldArguments;
    ArgumentsTally(args);
    TallyTwo(TokValue(selector), TokOp(opText));
    TallyConcat([TokValue(selector), TokOp(opText)], YieldArguments(args));
  }

  lemma {:induction false} AtomTally(a: Atom)
    requires AtomOk(a)
    ensures Tally(YieldAtom(a)) == Measured(SizeOf(TreeAtom(a)))
    decreases a, 0
  {
    hide Tally, YieldDisj, YieldArguments, TreeDisj;
    match a
    case Group(body) =>
      DisjTally(body);
      BracketsTally(YieldDisj(body));
    case Test(selector, opText, args) =>
      TestTally(selector, opText, args);
  }

  /** Behind the first operand: each further one adds its own tally and its ';'. */
  lemma {:induction false} FactorsTally(factors: seq<Atom>, k: nat)
    requires k <= |factors| && forall a | a in factors :: AtomOk(a)
    ensures var z := SizeOfAll(TreeFactors(factors)[k..]);
      Tally(YieldFactors(factors, k)) == (z.leaves, z.ands + |factors| - k)
    decreases factors, |factors| - k
  {
    hide Tally, YieldAtom, TreeAtom, AtomOk, SizeOf;
    var rest := TreeFactors(factors)[k..];
    if k < |factors| {
      AtomTally(factors[k]);
      FactorsTally(factors, k + 1);
      TallyOne(TokAnd);
      TallyConcat([TokAnd], YieldAtom(factors[k]));
      TallyConcat([TokAnd] + YieldAtom(factors[k]), YieldFactors(factors, k + 1));
      assert rest[1..] == TreeFactors(factors)[k + 1..];
    } else {
      NothingTallies();
    }
  }

  lemma {:induction false} ConjTally(c: Conj)
    requires ConjOk(c)
    ensures Tally(YieldConj(c)) == Measured(SizeOf(TreeConj(c)))
    decreases c, 0
  {
    hide Tally, YieldAtom, TreeAtom, AtomOk;
    var ns := TreeFactors(c.factors);
    AtomTally(c.factors[0]);
    FactorsTally(c.factors, 1);
    TallyConcat(YieldAtom(c.factors[0]), YieldFactors(c.factors, 1));
    assert SizeOfAll(ns) == Beside(SizeOf(ns[0]), SizeOfAll(ns[1..]));
  }

  lemma {:induction false} TermsTally(terms: seq<Conj>, k: nat)
    requires k <= |terms| && forall c | c in terms :: ConjOk(c)
    ensures Tally(YieldTerms(terms, k)) == Measured(SizeOfAll(TreeTerms(terms)[k..]))
    decreases terms, |terms| - k
  {
    hide Tally, YieldConj, TreeConj, ConjOk, SizeOf;
    var rest := TreeTerms(terms)[k..];
    if k < |terms| {
      ConjTally(terms[k]);
      TermsTally(terms, k + 1);
      TallyOne(TokOr);
      TallyConcat([TokOr], YieldConj(terms[k]));
      TallyConcat([TokOr] + YieldConj(terms[k]), YieldTerms(terms, k + 1));
      assert rest[1..] == TreeTerms(terms)[k + 1..];
    } else {
      NothingTallies();
    }
  }

  lemma {:induction false} DisjTally(d: Disj)
    requires DisjOk(d)
    ensures Tally(YieldDisj(d)) == Measured(SizeOf(TreeDisj(d)))
    decreases d, 0
  {
    hide Tally, YieldConj, TreeConj, ConjOk;
    var ns := TreeTerms(d.terms);
    ConjTally(d.terms[0]);
    TermsTally(d.terms, 1);
    TallyConcat(YieldConj(d.terms[0]), YieldTerms(d.terms, 1));
    assert SizeOfAll(ns) == Beside(SizeOf(ns[0]), SizeOfAll(ns[1..]));
  }

  /** The measures the binder counts are symbols of the text: a comparison for each operator, a
      conjunction for each ';', and every other operand beyond the first is a disjunction. */
  lemma {:induction false} SizeCountsSymbols(expr: string, n: Node)
    requires ParseText(expr) == Ok(n)
    ensures SizeOf(n).leaves == Count(Stream(expr), IsOp) && SizeOf(n).ands == Count(Stream(expr), IsAnd)
    ensures SizeOf(n).ors == Count(Stream(expr), IsOp) - Count(Stream(expr), IsAnd) - 1
  {
    hide Stream, YieldDisj, TreeDisj, DisjOk, SizeOf, ParseAll, WellShaped, Count;
    var ts := Stream(expr);
    assert ParseAll(ts) == Ok(n);
    ParseIffDerives(ts, n);
    var d :| DisjOk(d) && ts == YieldDisj(d) + [TokEOF] && n == TreeDisj(d);
    DisjTally(d);
    TallyConcat(YieldDisj(d), [TokEOF]);
    TallyOne(TokEOF);
    TreeWellShaped(d);
    LeavesCountOperands(n);
  }

  /** The whole of `Bind`, for every expression, schema and limits: it parses, every comparison
      fits its schema entry, and each positive limit is kept. */
  lemma {:induction false} AcceptedIff(expr: string, s: Schema, lim: Limits)
    ensures BindText(expr, s, lim).Ok? <==>
      && ParseText(expr).Ok?
      && var n, ops, ands := ParseText(expr).value, Count(Stream(expr), IsOp), Count(Stream(expr), IsAnd);
      && (forall c | c in Comparisons(n) :: Fits(c, s))
      && (lim.maxDepth > 0 ==> !Deep(n, lim.maxDepth + 1))
      && (lim.maxComparisons > 0 ==> ops <= lim.maxComparisons)
      && (lim.maxDisjunctions > 0 ==> ops - ands - 1 <= lim.maxDisjunctions)
  {
    hide ParseText, Stream, Fits, Deep, SizeOf, Admissible, Count, Comparisons;
    if ParseText(expr).Ok? {
      var n := ParseText(expr).value;
      AdmissibleIff(n, s);
      DeepIff(n, lim.maxDepth + 1);
      SizeCountsSymbols(expr, n);
    }
  }
}
