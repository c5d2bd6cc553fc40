/** A bound tree as a parse tree, and its print as the text of that parse tree's symbols. */
module Echoes {
  import opened Ordering
  import opened Syntax
  import opened Grammar
  import opened Spelling
  import opened Schemas
  import opened Canonicals

  /** No nil, no group of fewer than two operands, no comparison without a value. */
  predicate Grouped(b: Bound) {
    match b
    case Nil => false
    case BoundAnd(ns) => |ns| >= 2 && forall m | m in ns :: Grouped(m)
    case BoundOr(ns) => |ns| >= 2 && forall m | m in ns :: Grouped(m)
    case BoundComparison(_, _, _, values) => |values| >= 1
  }

  lemma ConformsIsGrouped(b: Bound, s: Schema)
    requires Conforms(b, s)
    ensures Grouped(b)
  {
  }

  // ----- the syntax tree and the parse tree of a bound tree -----

  function Unbind(b: Bound): Node
    requires Grouped(b)
  {
    match b
    case BoundAnd(ns) => And(UnbindAll(ns))
    case BoundOr(ns) => Or(UnbindAll(ns))
    case BoundComparison(selector, _, op, values) => Comparison(selector, op, Keys(Text, values))
  }

  function UnbindAll(ns: seq<Bound>): (r: seq<Node>)
    requires forall m | m in ns :: Grouped(m)
    ensures |r| == |ns|
    ensures forall i | 0 <= i < |ns| :: r[i] == Unbind(ns[i])
  {
    seq(|ns|, i requires 0 <= i < |ns| => Unbind(ns[i]))
  }

  function AtomOf(b: Bound): (a: Atom)
    requires Grouped(b)
    ensures AtomOk(a)
  {
    match b
    case BoundAnd(ns) =>
      var c := Conj(AtomsOf(ns));
      assert ConjOk(c);
      Group(Disj([c]))
    case BoundOr(ns) => Group(Disj(SoleTerms(AtomsOf(ns))))
    case BoundComparison(selector, _, op, values) =>
      CanonicalTextLooksUp(op);
      Test(selector, op.Text(), if |values| == 1 then Single(Text(values[0])) else Listed(Keys(Text, values)))
  }

  function AtomsOf(ns: seq<Bound>): (r: seq<Atom>)
    requires forall m | m in ns :: Grouped(m)
    ensures |r| == |ns|
    ensures forall i | 0 <= i < |ns| :: r[i] == AtomOf(ns[i])
    ensures forall a | a in r :: AtomOk(a)
  {
    if ns == [] then [] else [AtomOf(ns[0])] + AtomsOf(ns[1..])
  }

  function SoleTerm(a: Atom): (c: Conj)
    requires AtomOk(a)
    ensures ConjOk(c)
  {
    Conj([a])
  }

  function SoleTerms(atoms: seq<Atom>): (r: seq<Conj>)
    requires forall a | a in atoms :: AtomOk(a)
    ensures |r| == |atoms|
    ensures forall i | 0 <= i < |atoms| :: r[i] == SoleTerm(atoms[i])
    ensures forall c | c in r :: ConjOk(c)
  {
    seq(|atoms|, i requires 0 <= i < |atoms| => SoleTerm(atoms[i]))
  }

  lemma {:induction false} AtomMeansUnbind(b: Bound)
    requires Grouped(b)
    ensures TreeAtom(AtomOf(b)) == Unbind(b)
  {
    match b
    case BoundAnd(ns) =>
      var atoms := AtomsOf(ns);
      forall i | 0 <= i < |ns| ensures TreeFactors(atoms)[i] == UnbindAll(ns)[i] {
        AtomMeansUnbind(ns[i]);
      }
      assert TreeFactors(atoms) == UnbindAll(ns);
      var c := Conj(atoms);
      assert ConjOk(c) && TreeConj(c) == And(TreeFactors(atoms));
      assert DisjOk(Disj([c])) && TreeDisj(Disj([c])) == TreeConj(c);
    case BoundOr(ns) =>
      var terms := SoleTerms(AtomsOf(ns));
      forall i | 0 <= i < |ns| ensures TreeTerms(terms)[i] == UnbindAll(ns)[i] {
        AtomMeansUnbind(ns[i]);
      }
      assert TreeTerms(terms) == UnbindAll(ns);
    case BoundComparison(selector, _, op, values) =>
      CanonicalTextLooksUp(op);
      if |values| == 1 { assert Keys(Text, values) == [Text(values[0])]; }
  }

  /** The atom as a whole expression. */
  function Alone(a: Atom): (d: Disj)
    requires AtomOk(a)
    ensures DisjOk(d)
  {
    Disj([SoleTerm(a)])
  }

  lemma AloneYieldsAtom(a: Atom)
    requires AtomOk(a)
    ensures YieldDisj(Alone(a)) == YieldAtom(a) && TreeDisj(Alone(a)) == TreeAtom(a)
  {
    hide YieldAtom, TreeAtom, AtomOk;
    assert YieldConj(SoleTerm(a)) == YieldAtom(a) + [];
    assert YieldDisj(Alone(a)) == YieldConj(SoleTerm(a)) + [];
  }

  // ----- the text of a symbol sequence, with every value as its literal -----

  /** A value just before an operator is a selector, and selectors are printed raw. */
  predicate BeforeOp(ts: seq<Symbol>, i: nat) {
    i + 1 < |ts| && ts[i + 1].TokOp?
  }

  predicate StartsOp(ts: seq<Symbol>) {
    ts != [] && ts[0].TokOp?
  }

  function SymbolText(sym: Symbol, selector: bool): string {
    if !sym.TokValue? then Spell(sym, Unquoted([])) else if selector then sym.text else LiteralText(sym.text)
  }

  function Echo(ts: seq<Symbol>): string {
    if ts == [] then "" else SymbolText(ts[0], BeforeOp(ts, 0)) + Echo(ts[1..])
  }

  lemma {:induction false} EchoConcat(a: seq<Symbol>, b: seq<Symbol>)
    requires !StartsOp(b)
    ensures Echo(a + b) == Echo(a) + Echo(b)
  {
    hide SymbolText, Echo;
    if a == [] {
      EchoNothing();
      assert a + b == b && "" + Echo(b) == Echo(b);
    } else {
      EchoConcat(a[1..], b);
      EchoUnfolds(a);
      EchoUnfolds(a + b);
      assert (a + b)[0] == a[0] && (a + b)[1..] == a[1..] + b;
      assert BeforeOp(a + b, 0) == BeforeOp(a, 0);
      ConcatAssociative(SymbolText(a[0], BeforeOp(a, 0)), Echo(a[1..]), Echo(b));
    }
  }

  lemma EchoUnfolds(ts: seq<Symbol>)
    requires ts != []
    ensures Echo(ts) == SymbolText(ts[0], BeforeOp(ts, 0)) + Echo(ts[1..])
  {
  }

  lemma EchoOne(sym: Symbol)
    ensures Echo([sym]) == SymbolText(sym, false)
  {
    hide SymbolText;
    assert [sym][1..] == [];
  }

  lemma AtomStarts(a: Atom)
    requires AtomOk(a)
    ensures YieldAtom(a) != [] && Opens(YieldAtom(a)[0])
  {
    hide YieldDisj;
  }

  lemma JoinTail(parts: seq<string>, k: nat, sep: string)
    requires k < |parts|
    ensures Join(parts[k..], sep) == parts[k] + if k + 1 == |parts| then "" else sep + Join(parts[k + 1..], sep)
  {
    hide Join;
    assert parts[k..][1..] == parts[k + 1..];
    if k + 1 == |parts| { assert parts[k..] == [parts[k]]; }
    JoinUnfolds(parts[k..], sep);
  }

  lemma JoinUnfolds(parts: seq<string>, sep: string)
    requires parts != []
    ensures Join(parts, sep) == parts[0] + if |parts| == 1 then "" else sep + Join(parts[1..], sep)
  {
  }

  lemma {:induction false} JoinFactors(atoms: seq<Atom>, parts: seq<string>, k: nat)
    requires k < |atoms| == |parts| && forall a | a in atoms :: AtomOk(a)
    requires forall i | 0 <= i < |atoms| :: parts[i] == Echo(YieldAtom(atoms[i]))
    ensures Join(parts[k..], ";") == Echo(YieldAtom(atoms[k]) + YieldFactors(atoms, k + 1))
    decreases |atoms| - k
  {
    hide YieldAtom, AtomOk, Echo, Join;
    JoinTail(parts, k, ";");
    EchoConcat(YieldAtom(atoms[k]), YieldFactors(atoms, k + 1));
    if k + 1 == |atoms| {
      EchoNothing();
    } else {
      JoinFactors(atoms, parts, k + 1);
      var more := YieldAtom(atoms[k + 1]) + YieldFactors(atoms, k + 2);
      AtomStarts(atoms[k + 1]);
      assert YieldFactors(atoms, k + 1) == [TokAnd] + more;
      EchoConcat([TokAnd], more);
      EchoOne(TokAnd);
    }
  }

  lemma EchoNothing()
    ensures Echo([]) == ""
  {
  }

  lemma {:induction false} JoinTerms(atoms: seq<Atom>, parts: seq<string>, k: nat)
    requires k < |atoms| == |parts| && forall a | a in atoms :: AtomOk(a)
    requires forall i | 0 <= i < |atoms| :: parts[i] == Echo(YieldAtom(atoms[i]))
    ensures Join(parts[k..], ",") == Echo(YieldAtom(atoms[k]) + YieldTerms(SoleTerms(atoms), k + 1))
    decreases |atoms| - k
  {
    hide YieldAtom, AtomOk, Echo, Join;
    JoinTail(parts, k, ",");
    EchoConcat(YieldAtom(atoms[k]), YieldTerms(SoleTerms(atoms), k + 1));
    if k + 1 == |atoms| {
      EchoNothing();
    } else {
      JoinTerms(atoms, parts, k + 1);
      var more := YieldAtom(atoms[k + 1]) + YieldTerms(SoleTerms(atoms), k + 2);
      AtomStarts(atoms[k + 1]);
      assert YieldConj(SoleTerm(atoms[k + 1])) == YieldAtom(atoms[k + 1]) + [];
      assert YieldTerms(SoleTerms(atoms), k + 1) == [TokOr] + more;
      EchoConcat([TokOr], more);
      EchoOne(TokOr);
    }
  }

  lemma {:induction false} JoinValues(vs: seq<string>, parts: seq<string>, k: nat)
    requires k < |vs| == |parts|
    requires forall i | 0 <= i < |vs| :: parts[i] == LiteralText(vs[i])
    ensures Join(parts[k..], ",") == Echo([TokValue(vs[k])] + YieldValues(vs, k + 1))
    decreases |vs| - k
  {
    hide Echo, Join, LiteralText;
    JoinTail(parts, k, ",");
    EchoConcat([TokValue(vs[k])], YieldValues(vs, k + 1));
    EchoOne(TokValue(vs[k]));
    if k + 1 == |vs| {
      EchoNothing();
    } else {
      JoinValues(vs, parts, k + 1);
      var more := [TokValue(vs[k + 1])] + YieldValues(vs, k + 2);
      assert YieldValues(vs, k + 1) == [TokOr] + more;
      EchoConcat([TokOr], more);
      EchoOne(TokOr);
    }
  }

  lemma EchoBracketed(ts: seq<Symbol>)
    requires !StartsOp(ts)
    ensures Echo([TokLParen] + ts + [TokRParen]) == "(" + Echo(ts) + ")"
  {
    hide Echo;
    EchoConcat([TokLParen], ts);
    EchoConcat([TokLParen] + ts, [TokRParen]);
    EchoOne(TokLParen);
    EchoOne(TokRParen);
  }

  lemma LeafPrintIsEcho(b: Bound)
    requires Grouped(b) && b.BoundComparison?
    ensures Print(b) == Echo(YieldAtom(AtomOf(b)))
  {
    hide Echo, Join, LiteralText;
    var head := [TokValue(b.selector), TokOp(b.op.Text())];
    EchoHead(b.selector, b.op.Text());
    var args := AtomOf(b).args;
    EchoConcat(head, YieldArguments(args));
    if |b.values| == 1 {
      EchoOne(TokValue(Text(b.values[0])));
    } else {
      var vs, parts := Keys(Text, b.values), Keys(Literal, b.values);
      JoinValues(vs, parts, 0);
      assert parts[0..] == parts;
      EchoBracketed([TokValue(vs[0])] + YieldValues(vs, 1));
      assert YieldArguments(args) == [TokLParen] + ([TokValue(vs[0])] + YieldValues(vs, 1)) + [TokRParen];
    }
  }

  lemma EchoHead(selector: string, opText: string)
    ensures Echo([TokValue(selector), TokOp(opText)]) == selector + opText
  {
    var head := [TokValue(selector), TokOp(opText)];
    assert head[1..] == [TokOp(opText)];
    EchoOne(TokOp(opText));
    assert BeforeOp(head, 0);
  }

  /** The print of a tree is the text of its parse tree's symbols. */
  lemma {:induction false} PrintIsEcho(b: Bound)
    requires Grouped(b)
    ensures Print(b) == Echo(YieldAtom(AtomOf(b)))
  {
    hide Echo, Join, YieldConj;
    match b
    case BoundAnd(ns) =>
      var atoms, parts := AtomsOf(ns), PrintAll(ns);
      PrintAllIsEcho(ns);
      JoinFactors(atoms, parts, 0);
      assert parts[0..] == parts;
      AndYield(atoms);
      AtomStarts(atoms[0]);
      EchoBracketed(YieldAtom(atoms[0]) + YieldFactors(atoms, 1));
    case BoundOr(ns) =>
      var atoms, parts := AtomsOf(ns), PrintAll(ns);
      PrintAllIsEcho(ns);
      JoinTerms(atoms, parts, 0);
      assert parts[0..] == parts;
      OrYield(atoms);
      AtomStarts(atoms[0]);
      EchoBracketed(YieldAtom(atoms[0]) + YieldTerms(SoleTerms(atoms), 1));
    case BoundComparison(_, _, _, _) =>
      LeafPrintIsEcho(b);
  }

  lemma {:induction false} PrintAllIsEcho(ns: seq<Bound>)
    requires forall m | m in ns :: Grouped(m)
    ensures forall i | 0 <= i < |ns| :: PrintAll(ns)[i] == Echo(YieldAtom(AtomsOf(ns)[i]))
  {
    hide Print, Echo, YieldAtom;
    forall i | 0 <= i < |ns| ensures PrintAll(ns)[i] == Echo(YieldAtom(AtomsOf(ns)[i])) {
      PrintIsEcho(ns[i]);
    }
  }

  lemma AndYield(atoms: seq<Atom>)
    requires atoms != [] && forall a | a in atoms :: AtomOk(a)
    ensures ConjOk(Conj(atoms)) && AtomOk(Group(Disj([Conj(atoms)])))
    ensures YieldAtom(Group(Disj([Conj(atoms)])))
         == [TokLParen] + (YieldAtom(atoms[0]) + YieldFactors(atoms, 1)) + [TokRParen]
  {
    var c := Conj(atoms);
    assert ConjOk(c);
    AndBody(c);
  }

  lemma AndBody(c: Conj)
    requires ConjOk(c)
    ensures YieldDisj(Disj([c])) == YieldConj(c)
  {
    hide YieldConj, ConjOk;
    assert YieldDisj(Disj([c])) == YieldConj(c) + [];
  }

  lemma OrYield(atoms: seq<Atom>)
    requires atoms != [] && forall a | a in atoms :: AtomOk(a)
    ensures AtomOk(Group(Disj(SoleTerms(atoms))))
    ensures YieldAtom(Group(Disj(SoleTerms(atoms))))
         == [TokLParen] + (YieldAtom(atoms[0]) + YieldTerms(SoleTerms(atoms), 1)) + [TokRParen]
  {
    hide YieldDisj;
    var d := Disj(SoleTerms(atoms));
    assert DisjOk(d);
    OrBody(atoms);
  }

  lemma OrBody(atoms: seq<Atom>)
    requires atoms != [] && forall a | a in atoms :: AtomOk(a)
    ensures YieldDisj(Disj(SoleTerms(atoms))) == YieldAtom(atoms[0]) + YieldTerms(SoleTerms(atoms), 1)
  {
    hide YieldAtom, AtomOk;
    assert YieldConj(SoleTerm(atoms[0])) == YieldAtom(atoms[0]) + [];
  }

  // ----- which symbols occur -----

  /** `q` holds of every symbol, told whether an operator follows it. */
  ghost predicate AllOf(ts: seq<Symbol>, q: (Symbol, bool) -> bool) {
    forall i | 0 <= i < |ts| :: q(ts[i], BeforeOp(ts, i))
  }

  lemma AllOfConcat(a: seq<Symbol>, b: seq<Symbol>, q: (Symbol, bool) -> bool)
    requires !StartsOp(b)
    ensures AllOf(a + b, q) <==> AllOf(a, q) && AllOf(b, q)
  {
    var all := a + b;
    assert forall i | 0 <= i < |a| :: all[i] == a[i] && BeforeOp(all, i) == BeforeOp(a, i);
    assert forall i | 0 <= i < |b| :: all[|a| + i] == b[i] && BeforeOp(all, |a| + i) == BeforeOp(b, i);
    if AllOf(all, q) {
      forall i | 0 <= i < |b| ensures q(b[i], BeforeOp(b, i)) {
        assert q(all[|a| + i], BeforeOp(all, |a| + i));
      }
    }
  }

  predicate Punctuation(q: (Symbol, bool) -> bool) {
    q(TokLParen, false) && q(TokRParen, false) && q(TokAnd, false) && q(TokOr, false)
  }

  /** `q` holds of the symbols of every comparison. */
  predicate AllSymbols(b: Bound, q: (Symbol, bool) -> bool) {
    match b
    case Nil => true
    case BoundAnd(ns) => forall m | m in ns :: AllSymbols(m, q)
    case BoundOr(ns) => forall m | m in ns :: AllSymbols(m, q)
    case BoundComparison(selector, _, op, values) =>
      && q(TokValue(selector), true)
      && q(TokOp(op.Text()), false)
      && forall v | v in values :: q(TokValue(Text(v)), false)
  }

  /** One more operand behind its separator. */
  lemma AllOfNext(sep: Symbol, a: Atom, more: seq<Symbol>, q: (Symbol, bool) -> bool)
    requires AtomOk(a) && !StartsOp(more) && !sep.TokOp? && q(sep, false)
    ensures AllOf([sep] + YieldAtom(a) + more, q) <==> AllOf(YieldAtom(a), q) && AllOf(more, q)
  {
    hide YieldAtom, AtomOk, AllOf;
    AtomStarts(a);
    AllOfConcat([sep] + YieldAtom(a), more, q);
    AllOfConcat([sep], YieldAtom(a), q);
    AllOfOne(sep, q);
  }

  lemma {:induction false} AllOfFactors(atoms: seq<Atom>, k: nat, q: (Symbol, bool) -> bool)
    requires k <= |atoms| && (forall a | a in atoms :: AtomOk(a)) && Punctuation(q)
    ensures AllOf(YieldFactors(atoms, k), q) <==> forall i | k <= i < |atoms| :: AllOf(YieldAtom(atoms[i]), q)
    decreases |atoms| - k
  {
    hide YieldAtom, AtomOk, AllOf;
    if k < |atoms| {
      AllOfFactors(atoms, k + 1, q);
      AllOfNext(TokAnd, atoms[k], YieldFactors(atoms, k + 1), q);
    } else {
      AllOfNone(q);
    }
  }

  lemma AllOfNone(q: (Symbol, bool) -> bool)
    ensures AllOf([], q)
  {
  }

  lemma {:induction false} AllOfTerms(atoms: seq<Atom>, k: nat, q: (Symbol, bool) -> bool)
    requires k <= |atoms| && (forall a | a in atoms :: AtomOk(a)) && Punctuation(q)
    ensures AllOf(YieldTerms(SoleTerms(atoms), k), q) <==> forall i | k <= i < |atoms| :: AllOf(YieldAtom(atoms[i]), q)
    decreases |atoms| - k
  {
    hide YieldAtom, AtomOk, AllOf;
    if k < |atoms| {
      var more := YieldTerms(SoleTerms(atoms), k + 1);
      AllOfTerms(atoms, k + 1, q);
      assert YieldConj(SoleTerm(atoms[k])) == YieldAtom(atoms[k]) + [];
      assert YieldTerms(SoleTerms(atoms), k) == [TokOr] + YieldAtom(atoms[k]) + more;
      AllOfNext(TokOr, atoms[k], more, q);
    } else {
      AllOfNone(q);
    }
  }

  lemma {:induction false} AllOfValues(vs: seq<string>, k: nat, q: (Symbol, bool) -> bool)
    requires k <= |vs| && Punctuation(q)
    ensures AllOf(YieldValues(vs, k), q) <==> forall i | k <= i < |vs| :: q(TokValue(vs[i]), false)
    decreases |vs| - k
  {
    hide AllOf;
    if k < |vs| {
      AllOfValues(vs, k + 1, q);
      AllOfConcat([TokOr, TokValue(vs[k])], YieldValues(vs, k + 1), q);
      AllOfTwo(TokOr, TokValue(vs[k]), q);
    } else {
      AllOfNone(q);
    }
  }

  lemma AllOfBracketed(a: seq<Symbol>, b: seq<Symbol>, q: (Symbol, bool) -> bool)
    requires Punctuation(q) && a != [] && !StartsOp(a) && !StartsOp(b)
    ensures AllOf([TokLParen] + (a + b) + [TokRParen], q) <==> AllOf(a, q) && AllOf(b, q)
  {
    AllOfOne(TokLParen, q);
    AllOfOne(TokRParen, q);
    AllOfConcat([TokLParen] + (a + b), [TokRParen], q);
    AllOfConcat([TokLParen], a + b, q);
    AllOfConcat(a, b, q);
  }

  lemma AllOfLeaf(b: Bound, q: (Symbol, bool) -> bool)
    requires Grouped(b) && b.BoundComparison? && Punctuation(q)
    ensures AllOf(YieldAtom(AtomOf(b)), q) <==> AllSymbols(b, q)
  {
    hide AllOf;
    var head, args := [TokValue(b.selector), TokOp(b.op.Text())], AtomOf(b).args;
    AllOfConcat(head, YieldArguments(args), q);
    AllOfTwo(head[0], head[1], q);
    if |b.values| == 1 {
      AllOfOne(TokValue(Text(b.values[0])), q);
    } else {
      var vs := Keys(Text, b.values);
      AllOfBracketed([TokValue(vs[0])], YieldValues(vs, 1), q);
      assert YieldArguments(args) == [TokLParen] + ([TokValue(vs[0])] + YieldValues(vs, 1)) + [TokRParen];
      AllOfOne(TokValue(vs[0]), q);
      AllOfValues(vs, 1, q);
      assert forall i | 0 <= i < |vs| :: q(TokValue(vs[i]), false) <==> q(TokValue(Text(b.values[i])), false);
    }
  }

  lemma AllOfOne(sym: Symbol, q: (Symbol, bool) -> bool)
    ensures AllOf([sym], q) <==> q(sym, false)
  {
    assert AllOf([sym], q) ==> q([sym][0], BeforeOp([sym], 0));
  }

  lemma AllOfTwo(a: Symbol, b: Symbol, q: (Symbol, bool) -> bool)
    ensures AllOf([a, b], q) <==> q(a, b.TokOp?) && q(b, false)
  {
    var two := [a, b];
    assert AllOf(two, q) ==> q(two[0], BeforeOp(two, 0)) && q(two[1], BeforeOp(two, 1));
  }

  /** The symbols of the parse tree are those of the comparisons, and punctuation. */
  lemma {:induction false} AllOfAtom(b: Bound, q: (Symbol, bool) -> bool)
    requires Grouped(b) && Punctuation(q)
    ensures AllOf(YieldAtom(AtomOf(b)), q) <==> AllSymbols(b, q)
  {
    hide AllOf, YieldConj;
    match b
    case BoundAnd(ns) =>
      var atoms := AtomsOf(ns);
      AllOfEach(ns, q);
      AndYield(atoms);
      AtomStarts(atoms[0]);
      AllOfBracketed(YieldAtom(atoms[0]), YieldFactors(atoms, 1), q);
      AllOfFactors(atoms, 1, q);
    case BoundOr(ns) =>
      var atoms := AtomsOf(ns);
      AllOfEach(ns, q);
      OrYield(atoms);
      AtomStarts(atoms[0]);
      AllOfBracketed(YieldAtom(atoms[0]), YieldTerms(SoleTerms(atoms), 1), q);
      AllOfTerms(atoms, 1, q);
    case BoundComparison(_, _, _, _) =>
      AllOfLeaf(b, q);
  }

  lemma {:induction false} AllOfEach(ns: seq<Bound>, q: (Symbol, bool) -> bool)
    requires (forall m | m in ns :: Grouped(m)) && Punctuation(q)
    ensures forall i | 0 <= i < |ns| :: AllOf(YieldAtom(AtomsOf(ns)[i]), q) <==> AllSymbols(ns[i], q)
  {
    hide AllOf, YieldAtom, AllSymbols;
    forall i | 0 <= i < |ns| ensures AllOf(YieldAtom(AtomsOf(ns)[i]), q) <==> AllSymbols(ns[i], q) {
      AllOfAtom(ns[i], q);
    }
  }
}
