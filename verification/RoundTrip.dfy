/** Reading the canonical form back (rsql/canonical.go:10-14, 54-65): binding it again gives
    the normal form of the filter it was printed from, for exactly the filters whose
    selectors and values survive being printed. */
module RoundTrips {
  import opened Results
  import opened Runes
  import opened Ordering
  import opened Numbers
  import opened Syntax
  import opened Lexing
  import opened Grammar
  import opened Parsing
  import opened Spelling
  import opened Schemas
  import opened Canonicals
  import opened Literals
  import opened Echoes

  // ----- reading an echo -----

  predicate Plain(sym: Symbol, selector: bool) {
    match sym
    case TokEOF => false
    case TokBad => false
    case TokOp(text) => !selector && LookupOperator(text).Ok? && text != "<" && text != ">"
    case _ => sym.TokValue? || !selector
  }

  /** Selectors are bare and other values are safe. */
  predicate PlainSafe(sym: Symbol, selector: bool) {
    Plain(sym, selector) && (sym.TokValue? ==> if selector then IsBare(sym.text) else Safe(sym.text))
  }

  function EchoPiece(sym: Symbol): Piece {
    Piece("", sym, if sym.TokValue? then LiteralStyle(sym.text) else Unquoted([]))
  }

  function EchoPieces(ts: seq<Symbol>): (r: seq<Piece>)
    ensures |r| == |ts|
    ensures forall i | 0 <= i < |ts| :: r[i] == EchoPiece(ts[i])
  {
    if ts == [] then [] else [EchoPiece(ts[0])] + EchoPieces(ts[1..])
  }

  lemma BareIsClear(s: string)
    ensures IsBare(s) <==> !NeedsQuotes(s) && Safe(s)
  {
    hide Safe, NeedsQuotes, IsBare;
    SafeIsQuotedOrBare(s);
  }

  lemma EchoPieceSpells(sym: Symbol, selector: bool)
    requires PlainSafe(sym, selector)
    ensures PieceOk(EchoPiece(sym))
    ensures Spell(EchoPiece(sym).sym, EchoPiece(sym).style) == SymbolText(sym, selector)
  {
    if sym.TokValue? {
      BareIsClear(sym.text);
      SafeLiteralSpells(sym.text);
    }
  }

  lemma AllOfTail(ts: seq<Symbol>, q: (Symbol, bool) -> bool)
    requires ts != [] && AllOf(ts, q)
    ensures q(ts[0], BeforeOp(ts, 0)) && AllOf(ts[1..], q)
  {
    var tail := ts[1..];
    forall i | 0 <= i < |tail| ensures q(tail[i], BeforeOp(tail, i)) {
      assert BeforeOp(tail, i) == BeforeOp(ts, i + 1);
    }
  }

  lemma {:induction false} EchoIsRender(ts: seq<Symbol>)
    requires AllOf(ts, PlainSafe)
    ensures Render(EchoPieces(ts)) == Echo(ts)
    ensures forall p | p in EchoPieces(ts) :: PieceOk(p)
  {
    hide PlainSafe, PieceOk, Spell, SymbolText, Render, AllOf, Echo;
    if ts == [] {
      NothingRenders("");
      EchoNothing();
    } else {
      AllOfTail(ts, PlainSafe);
      EchoPieceSpells(ts[0], BeforeOp(ts, 0));
      EchoIsRender(ts[1..]);
      EchoUnfolds(ts);
      var ps := EchoPieces(ts);
      RenderHead(ps, "");
      assert ps[1..] == EchoPieces(ts[1..]);
      assert Render(ps) + "" == Render(ps) && Render(ps[1..]) + "" == Render(ps[1..]);
      assert "" + SymbolText(ts[0], BeforeOp(ts, 0)) == SymbolText(ts[0], BeforeOp(ts, 0));
    }
  }

  lemma SymbolsOfEcho(ts: seq<Symbol>)
    ensures Symbols(EchoPieces(ts)) == ts
  {
  }

  lemma EchoDelimits(sym: Symbol, selector: bool, u: string)
    requires PlainSafe(sym, selector)
    requires Closes(sym) ==> u == "" || IsReserved(u[0])
    ensures Delimits(u, sym, EchoPiece(sym).style)
  {
  }

  /** The text of safe symbols reads back as those symbols, whatever comes after it. */
  lemma {:induction false} EchoReads(ts: seq<Symbol>, u: string)
    requires AllOf(ts, PlainSafe) && AllApart(ts)
    requires ts != [] && Closes(ts[|ts| - 1]) ==> u == "" || IsReserved(u[0])
    ensures Stream(Echo(ts) + u) == ts + Stream(u)
  {
    hide PlainSafe, PieceOk, Stream, Delimits, AllApart, Render, Echo;
    var ps := EchoPieces(ts);
    EchoIsRender(ts);
    SymbolsOfEcho(ts);
    if ts != [] {
      EchoDelimits(ts[|ts| - 1], false, u);
    }
    ApartIsWellSpaced(ps, u);
    RenderReads(ps, u);
  }

  lemma OpSymbolIsPlain(op: Operator)
    ensures Plain(TokOp(op.Text()), false)
  {
    CanonicalTextLooksUp(op);
    assert |op.Text()| >= 2;
  }

  lemma {:induction false} AllPlain(b: Bound)
    ensures AllSymbols(b, Plain)
  {
    match b
    case Nil =>
    case BoundAnd(ns) => forall m | m in ns ensures AllSymbols(m, Plain) { AllPlain(m); }
    case BoundOr(ns) => forall m | m in ns ensures AllSymbols(m, Plain) { AllPlain(m); }
    case BoundComparison(_, _, op, _) => OpSymbolIsPlain(op);
  }

  lemma PunctuationIsSafe()
    ensures Punctuation(PlainSafe) && Punctuation(Plain)
  {
  }

  /** The print of a tree whose selectors and values are safe parses to that tree. */
  lemma {:induction false} SafePrintParses(b: Bound)
    requires Grouped(b) && AllSymbols(b, PlainSafe)
    ensures ParseText(Print(b)) == Ok(Unbind(b))
  {
    hide *;
    var a := AtomOf(b);
    var ts := YieldAtom(a);
    PunctuationIsSafe();
    AllOfAtom(b, PlainSafe);
    AloneYieldsAtom(a);
    PrintIsEcho(b);
    EchoIsRender(ts);
    SymbolsOfEcho(ts);
    SpellingParses(EchoPieces(ts), Alone(a));
    AtomMeansUnbind(b);
  }

  /** So does the print of an AND group without its brackets. */
  lemma {:induction false} SafeRowParses(b: Bound)
    requires Grouped(b) && b.BoundAnd? && AllSymbols(b, PlainSafe)
    ensures ParseText(Join(PrintAll(b.nodes), ";")) == Ok(Unbind(b))
  {
    hide Echo, YieldAtom, Unbind, TreeAtom, Print, AllOf, PlainSafe, ParseText, AllSymbols;
    hide Join, EchoPieces, Symbols, Render, YieldFactors, TreeDisj, PieceOk;
    var atoms, parts := AtomsOf(b.nodes), PrintAll(b.nodes);
    var c := Conj(atoms);
    var d, ts := Disj([c]), YieldAtom(atoms[0]) + YieldFactors(atoms, 1);
    PrintAllIsEcho(b.nodes);
    JoinFactors(atoms, parts, 0);
    assert parts[0..] == parts;
    AndYield(atoms);
    AndBody(c);
    RowIsSafe(b);
    EchoIsRender(ts);
    SymbolsOfEcho(ts);
    assert Symbols(EchoPieces(ts)) == YieldDisj(d);
    SpellingParses(EchoPieces(ts), d);
    AtomMeansUnbind(b);
    GroupMeans(b, d);
  }

  lemma RowIsSafe(b: Bound)
    requires Grouped(b) && b.BoundAnd? && AllSymbols(b, PlainSafe)
    ensures var atoms := AtomsOf(b.nodes); AllOf(YieldAtom(atoms[0]) + YieldFactors(atoms, 1), PlainSafe)
  {
    hide YieldAtom, AllOf, PlainSafe, AtomOk;
    var atoms := AtomsOf(b.nodes);
    PunctuationIsSafe();
    AllOfEach(b.nodes, PlainSafe);
    AllOfFactors(atoms, 1, PlainSafe);
    AllOfConcat(YieldAtom(atoms[0]), YieldFactors(atoms, 1), PlainSafe);
  }

  lemma GroupMeans(b: Bound, d: Disj)
    requires Grouped(b) && b.BoundAnd? && DisjOk(d) && d == Disj([Conj(AtomsOf(b.nodes))])
    ensures TreeAtom(AtomOf(b)) == TreeDisj(d)
  {
    hide TreeDisj, DisjOk;
  }

  // ----- a text for every filter -----

  function QuotedPiece(sym: Symbol): Piece {
    Piece("", sym, InQuotes('"', []))
  }

  function QuotedPieces(ts: seq<Symbol>): (r: seq<Piece>)
    ensures |r| == |ts|
    ensures forall i | 0 <= i < |ts| :: r[i] == QuotedPiece(ts[i])
  {
    seq(|ts|, i requires 0 <= i < |ts| => QuotedPiece(ts[i]))
  }

  /** The filter with brackets around every group and quotes around every selector and value. */
  function QuotedText(b: Bound): string
    requires Grouped(b)
  {
    Render(QuotedPieces(YieldAtom(AtomOf(b))))
  }

  lemma QuotedPiecesOk(ts: seq<Symbol>)
    requires AllOf(ts, Plain)
    ensures forall p | p in QuotedPieces(ts) :: PieceOk(p)
    ensures Symbols(QuotedPieces(ts)) == ts
  {
    forall p | p in QuotedPieces(ts) ensures PieceOk(p) {
      var i :| 0 <= i < |ts| && QuotedPieces(ts)[i] == p;
      assert Plain(ts[i], BeforeOp(ts, i));
    }
  }

  /** Quoting everything loses nothing, whatever the selectors and values hold. */
  lemma {:induction false} QuotedTextParses(b: Bound)
    requires Grouped(b)
    ensures ParseText(QuotedText(b)) == Ok(Unbind(b))
  {
    hide Render, YieldAtom, TreeAtom, AllOf, AllSymbols, ParseText, Plain, PieceOk, QuotedPieces, Symbols, Unbind;
    hide Alone;
    var a := AtomOf(b);
    PunctuationIsSafe();
    AllPlain(b);
    AllOfAtom(b, Plain);
    QuotedPiecesOk(YieldAtom(a));
    AloneYieldsAtom(a);
    SpellingParses(QuotedPieces(YieldAtom(a)), Alone(a));
    AtomMeansUnbind(b);
  }

  // ----- values in order -----

  function ValuesOf(ts: seq<Symbol>): seq<string> {
    if ts == [] then []
    else (if ts[0].TokValue? then [ts[0].text] else []) + ValuesOf(ts[1..])
  }

  lemma {:induction false} ValuesOfConcat(a: seq<Symbol>, b: seq<Symbol>)
    ensures ValuesOf(a + b) == ValuesOf(a) + ValuesOf(b)
  {
    if a == [] {
      assert a + b == b;
    } else {
      ValuesOfConcat(a[1..], b);
      assert (a + b)[0] == a[0] && (a + b)[1..] == a[1..] + b;
      var first := if a[0].TokValue? then [a[0].text] else [];
      assert first + (ValuesOf(a[1..]) + ValuesOf(b)) == (first + ValuesOf(a[1..])) + ValuesOf(b);
    }
  }

  lemma ValuesOfOne(sym: Symbol)
    ensures ValuesOf([sym]) == if sym.TokValue? then [sym.text] else []
  {
    assert [sym][1..] == [];
  }

  /** Selectors and arguments of a syntax tree, left to right. */
  function Flat(n: Node): seq<string> {
    match n
    case And(ns) => FlatAll(ns)
    case Or(ns) => FlatAll(ns)
    case Comparison(selector, _, args) => [selector] + args
  }

  function FlatAll(ns: seq<Node>): seq<string> {
    if ns == [] then [] else Flat(ns[0]) + FlatAll(ns[1..])
  }

  lemma {:induction false} ValuesOfArguments(vs: seq<string>, k: nat)
    requires k <= |vs|
    ensures ValuesOf(YieldValues(vs, k)) == vs[k..]
    decreases |vs| - k
  {
    hide ValuesOf;
    if k < |vs| {
      ValuesOfArguments(vs, k + 1);
      ValuesOfConcat([TokOr, TokValue(vs[k])], YieldValues(vs, k + 1));
      ValuesOfItem(vs[k]);
      assert vs[k..] == [vs[k]] + vs[k + 1..];
    } else {
      NothingHasNoValues();
    }
  }

  lemma ValuesOfItem(v: string)
    ensures ValuesOf([TokOr, TokValue(v)]) == [v]
  {
    assert [TokOr, TokValue(v)][1..] == [TokValue(v)];
    ValuesOfOne(TokValue(v));
  }

  lemma NothingHasNoValues()
    ensures ValuesOf([]) == []
  {
  }

  lemma ValuesOfBracketed(ts: seq<Symbol>)
    ensures ValuesOf([TokLParen] + ts + [TokRParen]) == ValuesOf(ts)
  {
    hide ValuesOf;
    ValuesOfConcat([TokLParen] + ts, [TokRParen]);
    ValuesOfConcat([TokLParen], ts);
    ValuesOfOne(TokLParen);
    ValuesOfOne(TokRParen);
  }

  lemma ValuesOfTest(a: Atom)
    requires AtomOk(a) && a.Test?
    ensures ValuesOf(YieldAtom(a)) == Flat(TreeAtom(a))
  {
    hide ValuesOf;
    var head := [TokValue(a.selector), TokOp(a.opText)];
    assert head == [TokValue(a.selector)] + [TokOp(a.opText)];
    ValuesOfConcat([TokValue(a.selector)], [TokOp(a.opText)]);
    ValuesOfOne(TokValue(a.selector));
    ValuesOfOne(TokOp(a.opText));
    ValuesOfConcat(head, YieldArguments(a.args));
    if a.args.Single? {
      ValuesOfOne(TokValue(a.args.value));
    } else {
      var vs := a.args.values;
      var items := [TokValue(vs[0])] + YieldValues(vs, 1);
      ValuesOfArguments(vs, 1);
      ValuesOfConcat([TokValue(vs[0])], YieldValues(vs, 1));
      ValuesOfOne(TokValue(vs[0]));
      assert vs == [vs[0]] + vs[1..];
      assert YieldArguments(a.args) == [TokLParen] + items + [TokRParen];
      ValuesOfBracketed(items);
    }
  }

  lemma {:induction false} ValuesOfAtom(a: Atom)
    requires AtomOk(a)
    ensures ValuesOf(YieldAtom(a)) == Flat(TreeAtom(a))
    decreases a, 0
  {
    hide ValuesOf, Flat, YieldDisj;
    if a.Test? {
      ValuesOfTest(a);
    } else {
      ValuesOfBracketed(YieldDisj(a.body));
      ValuesOfDisj(a.body);
    }
  }

  lemma {:induction false} ValuesOfFactors(factors: seq<Atom>, k: nat)
    requires k <= |factors| && forall a | a in factors :: AtomOk(a)
    ensures ValuesOf(YieldFactors(factors, k)) == FlatAll(TreeFactors(factors)[k..])
    decreases factors, |factors| - k
  {
    hide Flat, YieldAtom, TreeAtom, AtomOk;
    if k < |factors| {
      ValuesOfAtom(factors[k]);
      ValuesOfFactors(factors, k + 1);
      ValuesOfConcat([TokAnd] + YieldAtom(factors[k]), YieldFactors(factors, k + 1));
      ValuesOfConcat([TokAnd], YieldAtom(factors[k]));
      ValuesOfOne(TokAnd);
      assert TreeFactors(factors)[k..][1..] == TreeFactors(factors)[k + 1..];
    }
  }

  lemma {:induction false} ValuesOfConj(c: Conj)
    requires ConjOk(c)
    ensures ValuesOf(YieldConj(c)) == Flat(TreeConj(c))
    decreases c, 0
  {
    hide ValuesOf, YieldAtom, TreeAtom, AtomOk;
    ValuesOfAtom(c.factors[0]);
    ValuesOfFactors(c.factors, 1);
    ValuesOfConcat(YieldAtom(c.factors[0]), YieldFactors(c.factors, 1));
    var nodes := TreeFactors(c.factors);
    FlatAllHead(nodes);
  }

  lemma FlatAllHead(ns: seq<Node>)
    requires ns != []
    ensures FlatAll(ns) == Flat(ns[0]) + FlatAll(ns[1..])
    ensures |ns| == 1 ==> FlatAll(ns) == Flat(ns[0])
  {
  }

  lemma {:induction false} ValuesOfTerms(terms: seq<Conj>, k: nat)
    requires k <= |terms| && forall c | c in terms :: ConjOk(c)
    ensures ValuesOf(YieldTerms(terms, k)) == FlatAll(TreeTerms(terms)[k..])
    decreases terms, |terms| - k
  {
    hide Flat, YieldConj, TreeConj, ConjOk;
    if k < |terms| {
      ValuesOfConj(terms[k]);
      ValuesOfTerms(terms, k + 1);
      ValuesOfConcat([TokOr] + YieldConj(terms[k]), YieldTerms(terms, k + 1));
      ValuesOfConcat([TokOr], YieldConj(terms[k]));
      ValuesOfOne(TokOr);
      assert TreeTerms(terms)[k..][1..] == TreeTerms(terms)[k + 1..];
    }
  }

  lemma {:induction false} ValuesOfDisj(d: Disj)
    requires DisjOk(d)
    ensures ValuesOf(YieldDisj(d)) == Flat(TreeDisj(d))
    decreases d, 0
  {
    hide ValuesOf, YieldConj, TreeConj, ConjOk;
    ValuesOfConj(d.terms[0]);
    ValuesOfTerms(d.terms, 1);
    ValuesOfConcat(YieldConj(d.terms[0]), YieldTerms(d.terms, 1));
    FlatAllHead(TreeTerms(d.terms));
  }

  /** Selectors and values of a bound tree, left to right. */
  function Slots(b: Bound): seq<Value> {
    match b
    case Nil => []
    case BoundAnd(ns) => SlotsAll(ns)
    case BoundOr(ns) => SlotsAll(ns)
    case BoundComparison(selector, _, _, values) => [Str(selector)] + values
  }

  function SlotsAll(ns: seq<Bound>): seq<Value> {
    if ns == [] then [] else Slots(ns[0]) + SlotsAll(ns[1..])
  }

  lemma KeysConcat(a: seq<Value>, b: seq<Value>)
    ensures Keys(Text, a + b) == Keys(Text, a) + Keys(Text, b)
  {
  }

  lemma {:induction false} FlatOfUnbind(b: Bound)
    requires Grouped(b)
    ensures Flat(Unbind(b)) == Keys(Text, Slots(b))
  {
    hide Keys;
    match b
    case BoundAnd(ns) => FlatOfUnbindAll(ns);
    case BoundOr(ns) => FlatOfUnbindAll(ns);
    case BoundComparison(selector, _, _, values) =>
      KeysConcat([Str(selector)], values);
      assert Keys(Text, [Str(selector)]) == [selector] by { KeysOne(Str(selector)); }
  }

  lemma KeysOne(v: Value)
    ensures Keys(Text, [v]) == [Text(v)]
  {
  }

  lemma {:induction false} FlatOfUnbindAll(ns: seq<Bound>)
    requires forall m | m in ns :: Grouped(m)
    ensures FlatAll(UnbindAll(ns)) == Keys(Text, SlotsAll(ns))
  {
    hide Unbind, Slots, Flat;
    if ns != [] {
      FlatOfUnbind(ns[0]);
      FlatOfUnbindAll(ns[1..]);
      assert UnbindAll(ns)[1..] == UnbindAll(ns[1..]);
      KeysConcat(Slots(ns[0]), SlotsAll(ns[1..]));
    }
  }

  /** Binding reads every string slot off its text unchanged. */
  ghost predicate Agrees(texts: seq<string>, slots: seq<Value>) {
    |texts| == |slots| && forall i | 0 <= i < |slots| && slots[i].Str? :: texts[i] == slots[i].s
  }

  lemma {:induction false} BindAgrees(n: Node, s: Schema)
    requires Admissible(n, s)
    ensures Agrees(Flat(n), Slots(BindNode(n, s)))
  {
    match n
    case And(ns) => BindAllAgrees(ns, s);
    case Or(ns) => BindAllAgrees(ns, s);
    case Comparison(selector, op, args) =>
      var values := CoerceAll(args, s[selector]);
      forall i | 0 <= i < |values| && values[i].Str? ensures args[i] == values[i].s {
        assert Coerce(args[i], s[selector]) == Ok(values[i]);
      }
  }

  lemma AgreesConcat(t: seq<string>, a: seq<Value>, u: seq<string>, b: seq<Value>)
    requires Agrees(t, a) && Agrees(u, b)
    ensures Agrees(t + u, a + b)
  {
  }

  lemma {:induction false} BindAllAgrees(ns: seq<Node>, s: Schema)
    requires forall m | m in ns :: Admissible(m, s)
    ensures Agrees(FlatAll(ns), SlotsAll(BindNodes(ns, s)))
  {
    hide Agrees, Flat, Slots, BindNode, Admissible;
    if ns == [] {
      assert FlatAll(ns) == [] && SlotsAll(BindNodes(ns, s)) == [];
      NothingAgrees();
    } else {
      BindAgrees(ns[0], s);
      BindAllAgrees(ns[1..], s);
      assert BindNodes(ns, s)[1..] == BindNodes(ns[1..], s);
      AgreesConcat(Flat(ns[0]), Slots(BindNode(ns[0], s)), FlatAll(ns[1..]), SlotsAll(BindNodes(ns[1..], s)));
    }
  }

  lemma NothingAgrees()
    ensures Agrees([], [])
  {
  }

  // ----- a tree that comes back is safe -----

  /** The first symbol that `q` does not hold of. */
  lemma FirstExcept(ts: seq<Symbol>, q: (Symbol, bool) -> bool) returns (k: nat)
    requires !AllOf(ts, q)
    ensures k < |ts| && !q(ts[k], BeforeOp(ts, k))
    ensures forall i | 0 <= i < k :: q(ts[i], BeforeOp(ts, i))
  {
    var last :| 0 <= last < |ts| && !q(ts[last], BeforeOp(ts, last));
    k := 0;
    while q(ts[k], BeforeOp(ts, k))
      invariant k <= last && forall i | 0 <= i < k :: q(ts[i], BeforeOp(ts, i))
      decreases last - k
    {
      k := k + 1;
    }
  }

  lemma AllOfBefore(ts: seq<Symbol>, k: nat, q: (Symbol, bool) -> bool)
    requires k < |ts| && !ts[k].TokOp? && forall i | 0 <= i < k :: q(ts[i], BeforeOp(ts, i))
    ensures AllOf(ts[..k], q)
  {
    assert forall i | 0 <= i < k :: BeforeOp(ts[..k], i) == BeforeOp(ts, i);
  }

  /** What comes after a value starts with a separator, a closing bracket or an operator. */
  lemma EchoEnds(a: Symbol, ts: seq<Symbol>)
    requires a.TokValue? && AllApart([a] + ts) && AllOf(ts, Plain)
    ensures Ends(Echo(ts)) && (ts != [] ==> Echo(ts) != "")
  {
    if ts != [] {
      assert Apart(([a] + ts)[0], ([a] + ts)[1]);
      assert Plain(ts[0], BeforeOp(ts, 0));
      var t := SymbolText(ts[0], BeforeOp(ts, 0));
      if ts[0].TokOp? {
        OpStartsReserved(ts[0].text);
      }
      assert Echo(ts)[0] == t[0];
    }
  }

  /** Printed values that are not strings are always bare. */
  lemma PrintedSpecialIsString(v: Value)
    requires !IsBare(Text(v))
    ensures v.Str?
  {
    match v
    case Str(_) =>
    case Int(i) => FormatIntIsBare(i);
    case Bool(b) => FormatBoolParses(b);
  }

  lemma OpStartsReserved(text: string)
    requires LookupOperator(text).Ok?
    ensures text != "" && (text[0] == '=' || text[0] == '!' || text[0] == '<' || text[0] == '>')
  {
  }

  /** A selector that is not bare and a value that is not safe are not read back. */
  lemma SlotMisreads(v: string, selector: bool, u: string)
    requires if selector then !IsBare(v) && u != "" else !Safe(v)
    requires Ends(u)
    ensures FirstPastParens(Stream(v + u)) != TokValue(v)
  {
    hide Stream, Safe, NeedsQuotes, IsBare;
    BareIsClear(v);
    if Safe(v) {
      assert v[0..] == v;
      RawMisreads(v, 0, u);
    } else {
      UnsafeMisreads(v, u);
      StreamNotEmpty(v + u);
    }
  }

  /** In a derivable sequence the brackets that open at `k` lead up to a value, the next one
      in reading order. */
  lemma {:induction false} FirstValueAt(ys: seq<Symbol>, k: nat, after: seq<Symbol>)
    requires AllApart(ys) && EndsOperand(ys) && k < |ys| && Opens(ys[k])
    ensures var i := |ValuesOf(ys[..k])|;
      i < |ValuesOf(ys)| && FirstPastParens(ys[k..] + after) == TokValue(ValuesOf(ys)[i])
    decreases |ys| - k
  {
    hide ValuesOf, Opens, Closes;
    assert (ys[k..] + after)[0] == ys[k] && (ys[k..] + after)[1..] == ys[k + 1..] + after;
    if ys[k].TokValue? {
      ValueAt(ys, k);
    } else {
      ParenLeadsOn(ys, k);
      FirstValueAt(ys, k + 1, after);
      assert ys[..k + 1] == ys[..k] + [ys[k]];
      ValuesOfConcat(ys[..k], [ys[k]]);
      ValuesOfOne(ys[k]);
    }
  }

  lemma ParenLeadsOn(ys: seq<Symbol>, k: nat)
    requires AllApart(ys) && EndsOperand(ys) && k < |ys| && Opens(ys[k]) && !ys[k].TokValue?
    ensures ys[k] == TokLParen && k + 1 < |ys| && Opens(ys[k + 1])
  {
    if k + 1 < |ys| { assert Apart(ys[k], ys[k + 1]); }
  }

  lemma SlotFacts(ts: seq<Symbol>, k: nat)
    requires k < |ts| && ts[k].TokValue? && !PlainSafe(ts[k], BeforeOp(ts, k))
    requires AllOf(ts, Plain) && AllApart(ts)
    ensures if BeforeOp(ts, k) then !IsBare(ts[k].text) && ts[k + 1..] != [] else !Safe(ts[k].text)
    ensures k > 0 ==> !Closes(ts[..k][k - 1])
  {
    hide IsBare, Safe;
    assert Plain(ts[k], BeforeOp(ts, k));
    if k > 0 { assert Apart(ts[k - 1], ts[k - 1 + 1]); }
  }

  /** Where a selector or value that does not read back stands in the symbols `ts`, the tree
      that is read has another value in its place. */
  lemma {:induction false} UnsafeShows(ts: seq<Symbol>, k: nat, d: Disj)
    requires k < |ts| && ts[k].TokValue? && !PlainSafe(ts[k], BeforeOp(ts, k))
    requires AllOf(ts, Plain) && AllApart(ts) && forall i | 0 <= i < k :: PlainSafe(ts[i], BeforeOp(ts, i))
    requires DisjOk(d) && Stream(Echo(ts)) == YieldDisj(d) + [TokEOF]
    ensures var i := |ValuesOf(ts[..k])|; i < |ValuesOf(YieldDisj(d))| && ValuesOf(YieldDisj(d))[i] != ts[k].text
  {
    hide Stream, Echo, YieldDisj, AllApart, AllOf, Plain, DisjOk, ValuesOf, FirstPastParens, Opens, Closes, Safe;
    hide IsBare;
    var a, v, b := ts[..k], ts[k].text, ts[k + 1..];
    var u, ys := Echo(b), YieldDisj(d);
    SlotFacts(ts, k);
    TailsApart(ts, k);
    AllOfAfter(ts, k, Plain);
    AllOfBefore(ts, k, PlainSafe);
    EchoEnds(ts[k], b);
    EchoSplits(ts, k);
    EchoReads(a, v + u);
    SlotMisreads(v, BeforeOp(ts, k), u);
    StreamNotEmpty(v + u);
    var all := ys + [TokEOF];
    assert all == a + Stream(v + u);
    assert |all| == k + |Stream(v + u)| && ys[..k] == all[..k] == a;
    DisjOperand(d);
    StandsOpen(ys, ts, k);
    FirstValueAt(ys, k, [TokEOF]);
    assert ys[k..] + [TokEOF] == all[k..] == Stream(v + u);
  }

  lemma StreamNotEmpty(s: string)
    ensures Stream(s) != []
  {
    assert |Stream(s)| > 0;
  }

  lemma TailsApart(ts: seq<Symbol>, k: nat)
    requires k < |ts| && AllApart(ts)
    ensures AllApart(ts[..k]) && AllApart([ts[k]] + ts[k + 1..])
    ensures k > 0 ==> Apart(ts[k - 1], ts[k])
  {
    if k > 0 { assert Apart(ts[k - 1], ts[k - 1 + 1]); }
    var head, tail := ts[..k], [ts[k]] + ts[k + 1..];
    forall i | 0 <= i < |tail| - 1 ensures Apart(tail[i], tail[i + 1]) {
      assert Apart(ts[k + i], ts[k + i + 1]);
    }
    forall i | 0 <= i < |head| - 1 ensures Apart(head[i], head[i + 1]) {
      assert Apart(ts[i], ts[i + 1]);
    }
  }

  lemma AllOfAfter(ts: seq<Symbol>, k: nat, q: (Symbol, bool) -> bool)
    requires k < |ts| && AllOf(ts, q)
    ensures AllOf(ts[k + 1..], q)
  {
    var tail := ts[k + 1..];
    forall i | 0 <= i < |tail| ensures q(tail[i], BeforeOp(tail, i)) {
      assert BeforeOp(tail, i) == BeforeOp(ts, k + 1 + i);
    }
  }

  lemma EchoSplits(ts: seq<Symbol>, k: nat)
    requires k < |ts| && ts[k].TokValue? && (BeforeOp(ts, k) || !Safe(ts[k].text))
    ensures Echo(ts) == Echo(ts[..k]) + (ts[k].text + Echo(ts[k + 1..]))
  {
    var head, tail := ts[..k], ts[k..];
    assert ts == head + tail;
    EchoConcat(head, tail);
    EchoTail(ts, k);
  }

  lemma EchoTail(ts: seq<Symbol>, k: nat)
    requires k < |ts| && ts[k].TokValue? && (BeforeOp(ts, k) || !Safe(ts[k].text))
    ensures Echo(ts[k..]) == ts[k].text + Echo(ts[k + 1..])
  {
    assert ts[k..][1..] == ts[k + 1..] && BeforeOp(ts[k..], 0) == BeforeOp(ts, k);
  }

  /** A derivable sequence that agrees with `ts` before `k`, where a value stands, goes on
      with a value or '(' there. */
  lemma StandsOpen(ys: seq<Symbol>, ts: seq<Symbol>, k: nat)
    requires Operand(ys) && AllApart(ts) && k < |ts| && ts[k].TokValue?
    requires k <= |ys| && ys[..k] == ts[..k]
    ensures k < |ys| && Opens(ys[k])
  {
    if k > 0 {
      assert ys[k - 1] == ys[..k][k - 1] == ts[..k][k - 1] == ts[k - 1];
      assert Apart(ts[k - 1], ts[k - 1 + 1]);
      if k < |ys| {
        assert Apart(ys[k - 1], ys[k - 1 + 1]);
      }
    }
  }

  lemma ValueAt(ts: seq<Symbol>, k: nat)
    requires k < |ts| && ts[k].TokValue?
    ensures var i := |ValuesOf(ts[..k])|; i < |ValuesOf(ts)| && ValuesOf(ts)[i] == ts[k].text
  {
    hide ValuesOf;
    assert ts == ts[..k] + ([ts[k]] + ts[k + 1..]);
    ValuesOfConcat(ts[..k], [ts[k]] + ts[k + 1..]);
    ValuesOfConcat([ts[k]], ts[k + 1..]);
    ValuesOfOne(ts[k]);
  }

  /** A tree that comes back from its own print has bare selectors and safe values only. */
  lemma {:induction false} ReturnsOnlyIfSafe(b: Bound, n: Node, s: Schema)
    requires Grouped(b)
    requires ParseText(Print(b)) == Ok(n) && Admissible(n, s) && BindNode(n, s) == b
    ensures AllSymbols(b, PlainSafe)
  {
    hide *;
    var a := AtomOf(b);
    var ts := YieldAtom(a);
    PunctuationIsSafe();
    AllOfAtom(b, PlainSafe);
    AllPlain(b);
    AllOfAtom(b, Plain);
    if !AllOf(ts, PlainSafe) {
      PrintIsEcho(b);
      AloneYieldsAtom(a);
      DisjOperand(Alone(a));
      OperandApart(YieldDisj(Alone(a)));
      var d := ParsedDisj(Echo(ts), n);
      var k := FirstUnsafe(ts);
      UnsafeShows(ts, k, d);
      // the value at k, in the tree that was printed and in the tree that was read
      var i := |ValuesOf(ts[..k])|;
      ValueAt(ts, k);
      ValuesOfAtom(a);
      AtomMeansUnbind(b);
      FlatOfUnbind(b);
      ValuesOfDisj(d);
      BindAgrees(n, s);
      TextsAt(Slots(b), i);
      PrintedSpecialIsString(Slots(b)[i]);
      SlotAgrees(Flat(n), Slots(b), i);
    }
  }

  lemma OperandApart(ts: seq<Symbol>)
    requires Operand(ts)
    ensures AllApart(ts)
  {
  }

  lemma ParsedDisj(s: string, n: Node) returns (d: Disj)
    requires ParseText(s) == Ok(n)
    ensures DisjOk(d) && Stream(s) == YieldDisj(d) + [TokEOF] && n == TreeDisj(d)
  {
    hide Stream, YieldDisj, TreeDisj, DisjOk, ParseDisj;
    ParseIffDerives(Stream(s), n);
    d :| DisjOk(d) && Stream(s) == YieldDisj(d) + [TokEOF] && n == TreeDisj(d);
  }

  lemma FirstUnsafe(ts: seq<Symbol>) returns (k: nat)
    requires AllOf(ts, Plain) && !AllOf(ts, PlainSafe)
    ensures k < |ts| && ts[k].TokValue? && !PlainSafe(ts[k], BeforeOp(ts, k)) && !IsBare(ts[k].text)
    ensures forall i | 0 <= i < k :: PlainSafe(ts[i], BeforeOp(ts, i))
  {
    k := FirstExcept(ts, PlainSafe);
    assert Plain(ts[k], BeforeOp(ts, k));
    if ts[k].TokValue? { BareIsClear(ts[k].text); }
  }

  lemma SlotAgrees(texts: seq<string>, slots: seq<Value>, i: nat)
    requires Agrees(texts, slots) && i < |slots| && slots[i].Str?
    ensures i < |texts| && texts[i] == slots[i].s == Text(slots[i])
  {
  }

  lemma TextsAt(slots: seq<Value>, i: nat)
    requires i < |Keys(Text, slots)|
    ensures i < |slots| && Keys(Text, slots)[i] == Text(slots[i])
  {
  }
}
