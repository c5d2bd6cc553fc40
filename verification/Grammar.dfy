/** The grammar the parser implements, twice: declaratively, as parse trees with the symbols
    they stand for (`Yield...`) and the syntax tree they mean (`Tree...`); and as the
    deterministic recognizer (`Parse...`) that class Parser is proved to run. The two are
    shown to agree in both directions, which also makes the grammar unambiguous. */
module Grammar {
  import opened Results
  import opened Syntax

  // ----- parse trees -----

  /** or := and (',' and)* */
  datatype Disj = Disj(terms: seq<Conj>)

  /** and := constraint (';' constraint)* */
  datatype Conj = Conj(factors: seq<Atom>)

  /** constraint := '(' or ')' | selector operator arguments */
  datatype Atom = Group(body: Disj) | Test(selector: string, opText: string, args: Arguments)

  /** arguments := value | '(' value (',' value)* ')' */
  datatype Arguments = Single(value: string) | Listed(values: seq<string>)

  predicate DisjOk(d: Disj) {
    d.terms != [] && forall c | c in d.terms :: ConjOk(c)
  }

  predicate ConjOk(c: Conj) {
    c.factors != [] && forall a | a in c.factors :: AtomOk(a)
  }

  predicate AtomOk(a: Atom) {
    match a
    case Group(body) => DisjOk(body)
    case Test(_, opText, args) => LookupOperator(opText).Ok? && (args.Listed? ==> args.values != [])
  }

  // ----- the symbols a parse tree stands for -----

  function YieldDisj(d: Disj): seq<Symbol>
    requires DisjOk(d)
  {
    YieldConj(d.terms[0]) + YieldTerms(d.terms, 1)
  }

  /** ',' and a term, for each term from the `k`-th on. */
  function YieldTerms(terms: seq<Conj>, k: nat): seq<Symbol>
    requires k <= |terms| && forall c | c in terms :: ConjOk(c)
    decreases terms, |terms| - k
  {
    if k == |terms| then [] else [TokOr] + YieldConj(terms[k]) + YieldTerms(terms, k + 1)
  }

  function YieldConj(c: Conj): seq<Symbol>
    requires ConjOk(c)
  {
    YieldAtom(c.factors[0]) + YieldFactors(c.factors, 1)
  }

  function YieldFactors(factors: seq<Atom>, k: nat): seq<Symbol>
    requires k <= |factors| && forall a | a in factors :: AtomOk(a)
    decreases factors, |factors| - k
  {
    if k == |factors| then [] else [TokAnd] + YieldAtom(factors[k]) + YieldFactors(factors, k + 1)
  }

  function YieldAtom(a: Atom): seq<Symbol>
    requires AtomOk(a)
  {
    match a
    case Group(body) => [TokLParen] + YieldDisj(body) + [TokRParen]
    case Test(selector, opText, args) => [TokValue(selector), TokOp(opText)] + YieldArguments(args)
  }

  function YieldArguments(args: Arguments): seq<Symbol>
    requires args.Listed? ==> args.values != []
  {
    match args
    case Single(v) => [TokValue(v)]
    case Listed(vs) => [TokLParen, TokValue(vs[0])] + YieldValues(vs, 1) + [TokRParen]
  }

  function YieldValues(vs: seq<string>, k: nat): seq<Symbol>
    requires k <= |vs|
    decreases |vs| - k
  {
    if k == |vs| then [] else [TokOr, TokValue(vs[k])] + YieldValues(vs, k + 1)
  }

  // ----- the syntax tree a parse tree means -----

  /** A group of one operand is that operand. */
  function TreeDisj(d: Disj): Node
    requires DisjOk(d)
  {
    if |d.terms| == 1 then TreeConj(d.terms[0]) else Or(TreeTerms(d.terms))
  }

  function TreeTerms(terms: seq<Conj>): (r: seq<Node>)
    requires forall c | c in terms :: ConjOk(c)
    ensures |r| == |terms|
    ensures forall i | 0 <= i < |terms| :: r[i] == TreeConj(terms[i])
  {
    if terms == [] then [] else [TreeConj(terms[0])] + TreeTerms(terms[1..])
  }

  function TreeConj(c: Conj): Node
    requires ConjOk(c)
  {
    if |c.factors| == 1 then TreeAtom(c.factors[0]) else And(TreeFactors(c.factors))
  }

  function TreeFactors(factors: seq<Atom>): (r: seq<Node>)
    requires forall a | a in factors :: AtomOk(a)
    ensures |r| == |factors|
    ensures forall i | 0 <= i < |factors| :: r[i] == TreeAtom(factors[i])
  {
    if factors == [] then [] else [TreeAtom(factors[0])] + TreeFactors(factors[1..])
  }

  function TreeAtom(a: Atom): Node
    requires AtomOk(a)
  {
    match a
    case Group(body) => TreeDisj(body)
    case Test(selector, opText, args) =>
      Comparison(selector, LookupOperator(opText).value, if args.Single? then [args.value] else args.values)
  }

  lemma TreeTermsAppend(terms: seq<Conj>, c: Conj)
    requires (forall t | t in terms :: ConjOk(t)) && ConjOk(c)
    ensures TreeTerms(terms + [c]) == TreeTerms(terms) + [TreeConj(c)]
  {
    hide ConjOk, TreeConj;
  }

  lemma TreeFactorsAppend(factors: seq<Atom>, a: Atom)
    requires (forall f | f in factors :: AtomOk(f)) && AtomOk(a)
    ensures TreeFactors(factors + [a]) == TreeFactors(factors) + [TreeAtom(a)]
  {
    hide AtomOk, TreeAtom;
  }

  /** Every syntax tree the grammar produces is well shaped. */
  lemma TreeWellShaped(d: Disj)
    requires DisjOk(d)
    ensures WellShaped(TreeDisj(d))
  {
    forall c | c in d.terms ensures WellShaped(TreeConj(c)) {
      assert ConjOk(c);
      forall a | a in c.factors ensures WellShaped(TreeAtom(a)) {
        assert AtomOk(a);
        if a.Group? { TreeWellShaped(a.body); }
      }
    }
  }

  // ----- the recognizer -----

  /** A parse tree and the symbols left over. */
  datatype Parsed<+T> = Parsed(tree: T, rest: seq<Symbol>) | NoParse

  predicate At(ts: seq<Symbol>, sym: Symbol) {
    ts != [] && ts[0] == sym
  }

  function ParseDisj(ts: seq<Symbol>): (r: Parsed<Disj>)
    ensures r.Parsed? ==> |r.rest| < |ts| && DisjOk(r.tree)
    decreases |ts|, 3
  {
    match ParseConj(ts)
    case NoParse => NoParse
    case Parsed(c, rest) => ParseTerms([c], rest)
  }

  function ParseTerms(terms: seq<Conj>, ts: seq<Symbol>): (r: Parsed<Disj>)
    requires terms != [] && forall c | c in terms :: ConjOk(c)
    ensures r.Parsed? ==> |r.rest| <= |ts| && DisjOk(r.tree)
    decreases |ts|, 4
  {
    if At(ts, TokOr) then
      match ParseConj(ts[1..])
      case NoParse => NoParse
      case Parsed(c, rest) => ParseTerms(terms + [c], rest)
    else Parsed(Disj(terms), ts)
  }

  function ParseConj(ts: seq<Symbol>): (r: Parsed<Conj>)
    ensures r.Parsed? ==> |r.rest| < |ts| && ConjOk(r.tree)
    decreases |ts|, 2
  {
    match ParseAtom(ts)
    case NoParse => NoParse
    case Parsed(a, rest) => ParseFactors([a], rest)
  }

  function ParseFactors(factors: seq<Atom>, ts: seq<Symbol>): (r: Parsed<Conj>)
    requires factors != [] && forall a | a in factors :: AtomOk(a)
    ensures r.Parsed? ==> |r.rest| <= |ts| && ConjOk(r.tree)
    decreases |ts|, 3
  {
    if At(ts, TokAnd) then
      match ParseAtom(ts[1..])
      case NoParse => NoParse
      case Parsed(a, rest) => ParseFactors(factors + [a], rest)
    else Parsed(Conj(factors), ts)
  }

  function ParseAtom(ts: seq<Symbol>): (r: Parsed<Atom>)
    ensures r.Parsed? ==> |r.rest| < |ts| && AtomOk(r.tree)
    decreases |ts|, 1
  {
    if At(ts, TokLParen) then
      match ParseDisj(ts[1..])
      case NoParse => NoParse
      case Parsed(d, rest) => if At(rest, TokRParen) then Parsed(Group(d), rest[1..]) else NoParse
    else ParseTest(ts)
  }

  function ParseTest(ts: seq<Symbol>): (r: Parsed<Atom>)
    ensures r.Parsed? ==> |r.rest| < |ts| && AtomOk(r.tree) && r.tree.Test?
  {
    if |ts| >= 2 && ts[0].TokValue? && ts[1].TokOp? && LookupOperator(ts[1].text).Ok? then
      match ParseArguments(ts[2..])
      case NoParse => NoParse
      case Parsed(args, rest) => Parsed(Test(ts[0].text, ts[1].text, args), rest)
    else NoParse
  }

  function ParseArguments(ts: seq<Symbol>): (r: Parsed<Arguments>)
    ensures r.Parsed? ==> |r.rest| < |ts| && (r.tree.Listed? ==> r.tree.values != [])
  {
    if At(ts, TokLParen) then ParseValues([], ts[1..])
    else if ts != [] && ts[0].TokValue? then Parsed(Single(ts[0].text), ts[1..])
    else NoParse
  }

  function ParseValues(vs: seq<string>, ts: seq<Symbol>): (r: Parsed<Arguments>)
    ensures r.Parsed? ==> |r.rest| < |ts| && r.tree.Listed? && r.tree.values != []
    decreases |ts|
  {
    if |ts| >= 2 && ts[0].TokValue? then
      if ts[1] == TokOr then ParseValues(vs + [ts[0].text], ts[2..])
      else if ts[1] == TokRParen then Parsed(Listed(vs + [ts[0].text]), ts[2..])
      else NoParse
    else NoParse
  }

  /** The whole input: one or-expression, then the end. */
  function ParseAll(ts: seq<Symbol>): Result<Node> {
    match ParseDisj(ts)
    case NoParse => Err
    case Parsed(d, rest) => if rest == [TokEOF] then Ok(TreeDisj(d)) else Err
  }

  // ----- soundness: what is recognized is derivable -----

  lemma {:induction false} ValuesSound(vs: seq<string>, ts: seq<Symbol>)
    requires ParseValues(vs, ts).Parsed?
    ensures var p := ParseValues(vs, ts);
      && |vs| < |p.tree.values| && p.tree.values[..|vs|] == vs
      && ts == [TokValue(p.tree.values[|vs|])] + YieldValues(p.tree.values, |vs| + 1) + [TokRParen] + p.rest
    decreases |ts|
  {
    var next := vs + [ts[0].text];
    var p := ParseValues(vs, ts);
    if ts[1] == TokOr {
      ValuesSound(next, ts[2..]);
      assert p.tree.values[..|vs|] == p.tree.values[..|next|][..|vs|];
      assert p.tree.values[|vs|] == p.tree.values[..|next|][|vs|];
      assert ts == [ts[0], ts[1]] + ts[2..];
    } else {
      assert ts == [ts[0], ts[1]] + ts[2..];
    }
  }

  lemma ArgumentsSound(ts: seq<Symbol>)
    requires ParseArguments(ts).Parsed?
    ensures ts == YieldArguments(ParseArguments(ts).tree) + ParseArguments(ts).rest
  {
    hide ParseValues, YieldValues;
    assert ts == [ts[0]] + ts[1..];
    if At(ts, TokLParen) {
      ValuesSound([], ts[1..]);
    }
  }

  lemma TestSound(ts: seq<Symbol>)
    requires ParseTest(ts).Parsed?
    ensures ts == YieldAtom(ParseTest(ts).tree) + ParseTest(ts).rest
  {
    hide ParseArguments, YieldArguments;
    ArgumentsSound(ts[2..]);
    assert ts == [ts[0], ts[1]] + ts[2..];
  }

  lemma Regroup(ts: seq<Symbol>, a: seq<Symbol>, b: seq<Symbol>, c: seq<Symbol>)
    requires ts != [] && ts[1..] == a + (b + c)
    ensures ts == [ts[0]] + a + b + c
  {
    assert ts == [ts[0]] + ts[1..];
  }

  lemma {:induction false} AtomSound(ts: seq<Symbol>)
    requires ParseAtom(ts).Parsed?
    ensures ts == YieldAtom(ParseAtom(ts).tree) + ParseAtom(ts).rest
    decreases |ts|, 1
  {
    hide ParseDisj, YieldDisj, DisjOk, ParseTest;
    if At(ts, TokLParen) {
      DisjSound(ts[1..]);
      var p := ParseDisj(ts[1..]);
      assert p.rest == [TokRParen] + p.rest[1..];
      assert ts == [TokLParen] + ts[1..];
    } else {
      TestSound(ts);
    }
  }

  lemma {:induction false} FactorsSound(factors: seq<Atom>, ts: seq<Symbol>)
    requires factors != [] && forall a | a in factors :: AtomOk(a)
    requires ParseFactors(factors, ts).Parsed?
    ensures var p := ParseFactors(factors, ts);
      && |factors| <= |p.tree.factors| && p.tree.factors[..|factors|] == factors
      && ts == YieldFactors(p.tree.factors, |factors|) + p.rest
      && !At(p.rest, TokAnd)
    decreases |ts|, 3
  {
    hide ParseAtom, YieldAtom, AtomOk;
    if At(ts, TokAnd) {
      AtomSound(ts[1..]);
      var a := ParseAtom(ts[1..]);
      var next := factors + [a.tree];
      FactorsSound(next, a.rest);
      var p := ParseFactors(factors, ts);
      var fs := p.tree.factors;
      assert fs[..|factors|] == fs[..|next|][..|factors|] == factors;
      assert fs[|factors|] == fs[..|next|][|factors|] == a.tree;
      Regroup(ts, YieldAtom(a.tree), YieldFactors(fs, |next|), p.rest);
    }
  }

  lemma {:induction false} ConjSound(ts: seq<Symbol>)
    requires ParseConj(ts).Parsed?
    ensures ts == YieldConj(ParseConj(ts).tree) + ParseConj(ts).rest
    ensures !At(ParseConj(ts).rest, TokAnd)
    decreases |ts|, 2
  {
    hide ParseAtom, YieldAtom, AtomOk;
    AtomSound(ts);
    var a := ParseAtom(ts);
    FactorsSound([a.tree], a.rest);
    var fs := ParseConj(ts).tree.factors;
    assert fs[0] == fs[..1][0] == a.tree;
  }

  lemma {:induction false} TermsSound(terms: seq<Conj>, ts: seq<Symbol>)
    requires terms != [] && forall c | c in terms :: ConjOk(c)
    requires ParseTerms(terms, ts).Parsed?
    ensures var p := ParseTerms(terms, ts);
      && |terms| <= |p.tree.terms| && p.tree.terms[..|terms|] == terms
      && ts == YieldTerms(p.tree.terms, |terms|) + p.rest
    decreases |ts|, 4
  {
    hide ParseConj, YieldConj, ConjOk;
    if At(ts, TokOr) {
      ConjSound(ts[1..]);
      var c := ParseConj(ts[1..]);
      var next := terms + [c.tree];
      TermsSound(next, c.rest);
      var p := ParseTerms(terms, ts);
      var all := p.tree.terms;
      assert all[..|terms|] == all[..|next|][..|terms|] == terms;
      assert all[|terms|] == all[..|next|][|terms|] == c.tree;
      Regroup(ts, YieldConj(c.tree), YieldTerms(all, |next|), p.rest);
    }
  }

  lemma {:induction false} DisjSound(ts: seq<Symbol>)
    requires ParseDisj(ts).Parsed?
    ensures ts == YieldDisj(ParseDisj(ts).tree) + ParseDisj(ts).rest
    decreases |ts|, 3
  {
    hide ParseConj, YieldConj, ConjOk;
    ConjSound(ts);
    var c := ParseConj(ts);
    TermsSound([c.tree], c.rest);
    var all := ParseDisj(ts).tree.terms;
    assert all[0] == all[..1][0] == c.tree;
  }

  // ----- completeness: what is derivable is recognized, and as nothing else -----

  lemma {:induction false} ValuesComplete(vs: seq<string>, k: nat, rest: seq<Symbol>)
    requires k < |vs|
    ensures ParseValues(vs[..k], [TokValue(vs[k])] + YieldValues(vs, k + 1) + [TokRParen] + rest)
         == Parsed(Listed(vs), rest)
    decreases |vs| - k
  {
    var ts := [TokValue(vs[k])] + YieldValues(vs, k + 1) + [TokRParen] + rest;
    assert vs[..k] + [vs[k]] == vs[..k + 1];
    if k + 1 == |vs| {
      assert ts == [TokValue(vs[k]), TokRParen] + rest;
      assert vs[..k + 1] == vs;
    } else {
      ValuesComplete(vs, k + 1, rest);
      assert ts[2..] == [TokValue(vs[k + 1])] + YieldValues(vs, k + 2) + [TokRParen] + rest;
    }
  }

  lemma ArgumentsComplete(args: Arguments, rest: seq<Symbol>)
    requires args.Listed? ==> args.values != []
    ensures ParseArguments(YieldArguments(args) + rest) == Parsed(args, rest)
  {
    hide ParseValues, YieldValues;
    var ts := YieldArguments(args) + rest;
    if args.Listed? {
      ValuesComplete(args.values, 0, rest);
      assert args.values[..0] == [];
      assert ts[1..] == [TokValue(args.values[0])] + YieldValues(args.values, 1) + [TokRParen] + rest;
    } else {
      assert ts[1..] == rest;
    }
  }

  lemma {:induction false} AtomComplete(a: Atom, rest: seq<Symbol>)
    requires AtomOk(a)
    ensures ParseAtom(YieldAtom(a) + rest) == Parsed(a, rest)
    decreases a, 0
  {
    hide ParseDisj, YieldDisj, DisjOk, ParseArguments, YieldArguments;
    var ts := YieldAtom(a) + rest;
    match a
    case Group(body) =>
      DisjComplete(body, [TokRParen] + rest);
      assert ts[1..] == YieldDisj(body) + ([TokRParen] + rest);
      assert ([TokRParen] + rest)[1..] == rest;
    case Test(selector, opText, args) =>
      ArgumentsComplete(args, rest);
      assert ts[2..] == YieldArguments(args) + rest;
  }

  lemma {:induction false} FactorsComplete(factors: seq<Atom>, k: nat, rest: seq<Symbol>)
    requires 1 <= k <= |factors| && forall a | a in factors :: AtomOk(a)
    requires !At(rest, TokAnd)
    ensures ParseFactors(factors[..k], YieldFactors(factors, k) + rest) == Parsed(Conj(factors), rest)
    decreases factors, |factors| - k
  {
    hide ParseAtom, YieldAtom, AtomOk;
    var ts := YieldFactors(factors, k) + rest;
    if k == |factors| {
      assert ts == rest && factors[..k] == factors;
    } else {
      var more := YieldFactors(factors, k + 1) + rest;
      assert ts == [TokAnd] + (YieldAtom(factors[k]) + more);
      assert ts[1..] == YieldAtom(factors[k]) + more;
      AtomComplete(factors[k], more);
      assert factors[..k] + [factors[k]] == factors[..k + 1];
      FactorsComplete(factors, k + 1, rest);
    }
  }

  lemma {:induction false} ConjComplete(c: Conj, rest: seq<Symbol>)
    requires ConjOk(c) && !At(rest, TokAnd)
    ensures ParseConj(YieldConj(c) + rest) == Parsed(c, rest)
    decreases c, 0
  {
    var more := YieldFactors(c.factors, 1) + rest;
    AtomComplete(c.factors[0], more);
    assert YieldConj(c) + rest == YieldAtom(c.factors[0]) + more;
    FactorsComplete(c.factors, 1, rest);
    assert c.factors[..1] == [c.factors[0]];
  }

  lemma {:induction false} TermsComplete(terms: seq<Conj>, k: nat, rest: seq<Symbol>)
    requires 1 <= k <= |terms| && forall c | c in terms :: ConjOk(c)
    requires !At(rest, TokAnd) && !At(rest, TokOr)
    ensures ParseTerms(terms[..k], YieldTerms(terms, k) + rest) == Parsed(Disj(terms), rest)
    decreases terms, |terms| - k
  {
    hide ParseConj, YieldConj, ConjOk;
    var ts := YieldTerms(terms, k) + rest;
    if k == |terms| {
      assert ts == rest && terms[..k] == terms;
    } else {
      var more := YieldTerms(terms, k + 1) + rest;
      assert ts == [TokOr] + (YieldConj(terms[k]) + more);
      assert ts[1..] == YieldConj(terms[k]) + more;
      ConjComplete(terms[k], more);
      assert terms[..k] + [terms[k]] == terms[..k + 1];
      TermsComplete(terms, k + 1, rest);
    }
  }

  lemma {:induction false} DisjComplete(d: Disj, rest: seq<Symbol>)
    requires DisjOk(d) && !At(rest, TokAnd) && !At(rest, TokOr)
    ensures ParseDisj(YieldDisj(d) + rest) == Parsed(d, rest)
    decreases d, 0
  {
    var more := YieldTerms(d.terms, 1) + rest;
    ConjComplete(d.terms[0], more);
    assert YieldDisj(d) + rest == YieldConj(d.terms[0]) + more;
    TermsComplete(d.terms, 1, rest);
    assert d.terms[..1] == [d.terms[0]];
  }

  // ----- the main results -----

  ghost predicate Derives(ts: seq<Symbol>, n: Node) {
    exists d :: DisjOk(d) && ts == YieldDisj(d) + [TokEOF] && n == TreeDisj(d)
  }

  /** The recognizer accepts exactly the derivable symbol sequences, with the derived tree. */
  lemma ParseIffDerives(ts: seq<Symbol>, n: Node)
    ensures ParseAll(ts) == Ok(n) <==> Derives(ts, n)
  {
    if ParseAll(ts) == Ok(n) {
      DisjSound(ts);
      var d := ParseDisj(ts).tree;
      assert DisjOk(d) && ts == YieldDisj(d) + [TokEOF] && n == TreeDisj(d);
    }
    if Derives(ts, n) {
      var d :| DisjOk(d) && ts == YieldDisj(d) + [TokEOF] && n == TreeDisj(d);
      DisjComplete(d, [TokEOF]);
    }
  }

  /** The grammar is unambiguous: a symbol sequence has at most one parse tree. */
  lemma Unambiguous(d: Disj, e: Disj)
    requires DisjOk(d) && DisjOk(e) && YieldDisj(d) == YieldDisj(e)
    ensures d == e
  {
    DisjComplete(d, []);
    DisjComplete(e, []);
  }
}
