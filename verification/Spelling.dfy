/** The many ways to write one symbol sequence: spaces between tokens, values bare or quoted
    and escaped more than necessary, operators by any alias. The lexer and parser see
    through all of them. */
module Spelling {
  import opened Results
  import opened Runes
  import opened Syntax
  import opened Lexing
  import opened Grammar
  import opened Parsing

  /** How a value is written. `esc` marks the runes escaped although they need not be; runes
      that must be escaped are escaped whatever it says. */
  datatype Style = Unquoted(esc: seq<bool>) | InQuotes(q: char, esc: seq<bool>)

  predicate Marked(esc: seq<bool>) {
    esc != [] && esc[0]
  }

  function Unmark(esc: seq<bool>): seq<bool> {
    if esc == [] then [] else esc[1..]
  }

  function Rune(r: char, escaped: bool): string {
    if escaped then ['\\', r] else [r]
  }

  function SpellUnquoted(v: string, esc: seq<bool>): string {
    if v == "" then ""
    else
      Rune(v[0], Marked(esc) || v[0] == '\\' || IsSpace(v[0]) || IsReserved(v[0])) + SpellUnquoted(v[1..], Unmark(esc))
  }

  function SpellInQuotes(v: string, q: char, esc: seq<bool>): string {
    if v == "" then ""
    else Rune(v[0], Marked(esc) || v[0] == '\\' || v[0] == q) + SpellInQuotes(v[1..], q, Unmark(esc))
  }

  /** A token with the spaces in front of it. */
  datatype Piece = Piece(gap: string, sym: Symbol, style: Style)

  predicate PieceOk(p: Piece) {
    && IsSpaces(p.gap)
    && match p.sym
       case TokEOF => false
       case TokBad => false
       case TokOp(text) => LookupOperator(text).Ok?
       case TokValue(v) => if p.style.Unquoted? then v != "" else p.style.q == '"' || p.style.q == '\''
       case _ => true
  }

  function Spell(sym: Symbol, style: Style): string {
    match sym
    case TokLParen => "("
    case TokRParen => ")"
    case TokAnd => ";"
    case TokOr => ","
    case TokOp(text) => text
    case TokValue(v) =>
      if style.Unquoted? then SpellUnquoted(v, style.esc)
      else [style.q] + SpellInQuotes(v, style.q, style.esc) + [style.q]
    case _ => ""
  }

  function Render(ps: seq<Piece>): string {
    if ps == [] then "" else ps[0].gap + Spell(ps[0].sym, ps[0].style) + Render(ps[1..])
  }

  function Symbols(ps: seq<Piece>): (r: seq<Symbol>)
    ensures |r| == |ps|
    ensures forall i | 0 <= i < |ps| :: r[i] == ps[i].sym
  {
    if ps == [] then [] else [ps[0].sym] + Symbols(ps[1..])
  }

  /** The text after a token must not run into it. */
  predicate Delimits(u: string, sym: Symbol, style: Style) {
    match sym
    case TokValue(_) => style.Unquoted? ==> u == "" || IsSpace(u[0]) || IsReserved(u[0])
    case TokOp(text) => (text == "<" || text == ">") ==> u == "" || u[0] != '='
    case _ => true
  }

  // ----- one token -----

  lemma BareRuneReads(r: char, escaped: bool, t: string)
    requires escaped || (r != '\\' && !IsSpace(r) && !IsReserved(r))
    ensures Bare(Rune(r, escaped) + t) == Bare(t).After([r], |Rune(r, escaped)|)
  {
    var s := Rune(r, escaped) + t;
    if escaped { assert s[2..] == t; } else { assert s[1..] == t; }
  }

  lemma QuotedRuneReads(r: char, q: char, escaped: bool, t: string)
    requires escaped || (r != '\\' && r != q)
    ensures Quoted(Rune(r, escaped) + t, q) == Quoted(t, q).After([r], |Rune(r, escaped)|)
  {
    var s := Rune(r, escaped) + t;
    if escaped { assert s[2..] == t; } else { assert s[1..] == t; }
  }

  lemma BareStops(u: string)
    requires u == "" || IsSpace(u[0]) || IsReserved(u[0])
    ensures Bare(u) == Span("", 0)
  {
  }

  lemma {:induction false} UnquotedReads(v: string, esc: seq<bool>, u: string)
    requires u == "" || IsSpace(u[0]) || IsReserved(u[0])
    ensures Bare(SpellUnquoted(v, esc) + u) == Span(v, |SpellUnquoted(v, esc)|)
  {
    hide Bare, IsSpace, IsReserved, Rune;
    if v == "" {
      BareStops(u);
      assert "" + u == u;
    } else {
      var rest := SpellUnquoted(v[1..], Unmark(esc));
      var escaped := Marked(esc) || v[0] == '\\' || IsSpace(v[0]) || IsReserved(v[0]);
      assert v == [v[0]] + v[1..];
      assert SpellUnquoted(v, esc) + u == Rune(v[0], escaped) + (rest + u);
      BareRuneReads(v[0], escaped, rest + u);
      UnquotedReads(v[1..], Unmark(esc), u);
    }
  }

  lemma QuotedStops(q: char, u: string)
    requires q != '\\'
    ensures Quoted([q] + u, q) == Span("", 1)
  {
  }

  lemma {:induction false} InQuotesReads(v: string, q: char, esc: seq<bool>, u: string)
    requires q != '\\'
    ensures Quoted(SpellInQuotes(v, q, esc) + [q] + u, q) == Span(v, |SpellInQuotes(v, q, esc)| + 1)
  {
    hide Quoted, Rune;
    if v == "" {
      QuotedStops(q, u);
      assert "" + [q] + u == [q] + u;
    } else {
      var rest := SpellInQuotes(v[1..], q, Unmark(esc));
      var escaped := Marked(esc) || v[0] == '\\' || v[0] == q;
      assert v == [v[0]] + v[1..];
      assert SpellInQuotes(v, q, esc) + [q] + u == Rune(v[0], escaped) + (rest + [q] + u);
      QuotedRuneReads(v[0], q, escaped, rest + [q] + u);
      InQuotesReads(v[1..], q, Unmark(esc), u);
    }
  }

  lemma {:induction false} WordReads(name: string, u: string)
    requires forall i | 0 <= i < |name| :: IsLetter(name[i]) && name[i] != '='
    ensures Word(name + "=" + u) == Span(name, |name| + 1)
  {
    if name != "" {
      WordReads(name[1..], u);
      assert (name + "=" + u)[1..] == name[1..] + "=" + u;
      assert name == [name[0]] + name[1..];
    }
  }

  lemma NamedReads(name: string, u: string)
    requires name != "" && forall i | 0 <= i < |name| :: IsLetter(name[i]) && name[i] != '='
    ensures OpLexeme("=" + name + "=" + u) == Lexed(TokOp("=" + name + "="), |name| + 2)
  {
    var s := "=" + name + "=" + u;
    WordReads(name, u);
    assert s[1..] == name + "=" + u;
  }

  /** A spelling in the operator table that starts with '=' is "==" or letters between '='. */
  lemma AliasIsNamed(text: string)
    requires LookupOperator(text).Ok? && text[0] == '=' && text != "=="
    ensures |text| >= 4 && text[|text| - 1] == '=' && forall i | 1 <= i < |text| - 1 :: 'a' <= text[i] <= 'z'
  {
    if |text| == 4 {
      assert text[1] in "egnlieot" && text[2] in "qetn" && text[3] == '=';
    } else {
      assert |text| == 5 && text[1] in "on" && text[2] in "ui" && text[3] in "tn" && text[4] == '=';
    }
  }

  lemma OpReads(text: string, u: string)
    requires LookupOperator(text).Ok? && Delimits(u, TokOp(text), Unquoted([]))
    ensures OpLexeme(text + u) == Lexed(TokOp(text), |text|)
  {
    hide Word;
    var s := text + u;
    if text[0] == '=' && text != "==" {
      hide LookupOperator;
      AliasIsNamed(text);
      var name := text[1..|text| - 1];
      assert text == "=" + name + "=";
      NamedReads(name, u);
      assert s == "=" + name + "=" + u;
    } else if |text| == 2 {
      assert s[0] == text[0] && s[1] == text[1];
    } else {
      assert s[0] == text[0] && |text| == 1;
      if u != "" { assert s[1] == u[0]; }
    }
  }

  lemma UnquotedValueReads(v: string, esc: seq<bool>, u: string)
    requires v != "" && (u == "" || IsSpace(u[0]) || IsReserved(u[0]))
    ensures var t := SpellUnquoted(v, esc);
      t != "" && !IsSpace(t[0]) && Lexeme(t + u) == Lexed(TokValue(v), |t|)
  {
    hide Bare;
    var t := SpellUnquoted(v, esc);
    UnquotedReads(v, esc, u);
    assert t[0] == Rune(v[0], Marked(esc) || v[0] == '\\' || IsSpace(v[0]) || IsReserved(v[0]))[0];
    assert (t + u)[0] == t[0];
    assert Lexeme(t + u) == BareLexeme(t + u);
  }

  lemma QuotedValueReads(v: string, q: char, esc: seq<bool>, u: string)
    requires q == '"' || q == '\''
    ensures var t := [q] + SpellInQuotes(v, q, esc) + [q];
      t != "" && !IsSpace(t[0]) && Lexeme(t + u) == Lexed(TokValue(v), |t|)
  {
    hide Quoted;
    var t := [q] + SpellInQuotes(v, q, esc) + [q];
    InQuotesReads(v, q, esc, u);
    assert (t + u)[1..] == SpellInQuotes(v, q, esc) + [q] + u;
    assert (t + u)[0] == q;
  }

  lemma SymbolReads(sym: Symbol, style: Style, u: string)
    requires PieceOk(Piece("", sym, style)) && Delimits(u, sym, style)
    ensures var t := Spell(sym, style);
      t != "" && !IsSpace(t[0]) && Lexeme(t + u) == Lexed(sym, |t|)
  {
    hide OpLexeme, SpellUnquoted, SpellInQuotes, BareLexeme, QuotedLexeme;
    match sym
    case TokOp(text) =>
      OpReads(text, u);
    case TokValue(v) =>
      if style.Unquoted? {
        UnquotedValueReads(v, style.esc, u);
      } else {
        QuotedValueReads(v, style.q, style.esc, u);
      }
    case _ =>
  }

  lemma {:induction false} GapReads(gap: string, t: string)
    requires IsSpaces(gap) && (t != "" ==> !IsSpace(t[0]))
    ensures Gap(gap + t) == |gap|
  {
    if gap == "" {
      assert gap + t == t;
    } else {
      assert (gap + t)[1..] == gap[1..] + t;
      GapReads(gap[1..], t);
    }
  }

  lemma PieceReads(p: Piece, u: string)
    requires PieceOk(p) && Delimits(u, p.sym, p.style)
    ensures Stream(p.gap + Spell(p.sym, p.style) + u) == [p.sym] + Stream(u)
  {
    hide Lexeme, Spell, Gap;
    var t := Spell(p.sym, p.style);
    var s := p.gap + t + u;
    SymbolReads(p.sym, p.style, u);
    GapReads(p.gap, t + u);
    assert s == p.gap + (t + u);
    assert s[|p.gap|..] == t + u;
    assert Scan(s) == Scanned(p.sym, |p.gap|, |t|);
    assert s[|p.gap| + |t|..] == u;
  }

  lemma SpacesReadAsEnd(gap: string)
    requires IsSpaces(gap)
    ensures Stream(gap) == [TokEOF]
  {
    GapReads(gap, "");
    assert gap + "" == gap;
  }

  // ----- whole texts -----

  /** No piece runs into what follows it. */
  predicate WellSpaced(ps: seq<Piece>, u: string) {
    ps == [] || (Delimits(Render(ps[1..]) + u, ps[0].sym, ps[0].style) && WellSpaced(ps[1..], u))
  }

  lemma ConcatAssociative(a: string, b: string, c: string)
    ensures (a + b) + c == a + (b + c)
  {
  }

  lemma RenderHead(ps: seq<Piece>, u: string)
    requires ps != []
    ensures Render(ps) + u == ps[0].gap + Spell(ps[0].sym, ps[0].style) + (Render(ps[1..]) + u)
  {
    hide Spell;
    ConcatAssociative(ps[0].gap + Spell(ps[0].sym, ps[0].style), Render(ps[1..]), u);
  }

  lemma {:induction false} RenderReads(ps: seq<Piece>, u: string)
    requires forall p | p in ps :: PieceOk(p)
    requires WellSpaced(ps, u)
    ensures Stream(Render(ps) + u) == Symbols(ps) + Stream(u)
  {
    hide Stream, Delimits, PieceOk, Spell, Render;
    if ps == [] {
      NothingRenders(u);
    } else {
      var tail := Render(ps[1..]) + u;
      RenderReads(ps[1..], u);
      PieceReads(ps[0], tail);
      RenderHead(ps, u);
      assert [ps[0].sym] + (Symbols(ps[1..]) + Stream(u)) == [ps[0].sym] + Symbols(ps[1..]) + Stream(u);
    }
  }

  lemma NothingRenders(u: string)
    ensures Render([]) + u == u
  {
  }

  lemma SymbolsConcat(ps: seq<Piece>, qs: seq<Piece>)
    ensures Symbols(ps + qs) == Symbols(ps) + Symbols(qs)
  {
  }

  lemma {:induction false} RenderConcat(ps: seq<Piece>, qs: seq<Piece>)
    ensures Render(ps + qs) == Render(ps) + Render(qs)
  {
    hide Spell, Render;
    if ps == [] {
      assert ps + qs == qs;
      NothingRenders(Render(qs));
    } else {
      RenderConcat(ps[1..], qs);
      RenderHead(ps, Render(qs));
      RenderHead(ps + qs, "");
      assert (ps + qs)[0] == ps[0] && (ps + qs)[1..] == ps[1..] + qs;
      assert Render(ps + qs) + "" == Render(ps + qs) && Render(ps[1..] + qs) + "" == Render(ps[1..] + qs);
    }
  }

  /** The first symbol of an operand or argument. */
  predicate Opens(sym: Symbol) {
    sym.TokValue? || sym == TokLParen
  }

  /** The last symbol of an operand or argument. */
  predicate Closes(sym: Symbol) {
    sym.TokValue? || sym == TokRParen
  }

  /** In a derivable sequence an operand or argument starts exactly where none has just
      ended; so a value never touches a value, and a value or '(' follows every operator. */
  predicate Apart(a: Symbol, b: Symbol) {
    Closes(a) <==> !Opens(b)
  }

  /** Such neighbours need no space between them. */
  lemma ApartDelimits(a: Piece, b: Piece, u: string)
    requires PieceOk(a) && PieceOk(b) && Apart(a.sym, b.sym)
    ensures Delimits(b.gap + Spell(b.sym, b.style) + u, a.sym, a.style)
  {
    var t := b.gap + Spell(b.sym, b.style) + u;
    if b.gap != "" {
      assert t[0] == b.gap[0] && IsSpace(t[0]);
    } else {
      assert t[0] == Spell(b.sym, b.style)[0];
    }
  }

  lemma SpacesDelimit(a: Piece, gap: string)
    requires IsSpaces(gap) && !a.sym.TokOp?
    ensures Delimits(gap, a.sym, a.style)
  {
  }

  ghost predicate AllApart(ts: seq<Symbol>) {
    forall i | 0 <= i < |ts| - 1 :: Apart(ts[i], ts[i + 1])
  }

  predicate EndsOperand(ts: seq<Symbol>) {
    ts != [] && Closes(ts[|ts| - 1])
  }

  predicate StartsOperand(ts: seq<Symbol>) {
    ts != [] && Opens(ts[0])
  }

  /** A derivable piece: an operand from its first symbol to its last. */
  ghost predicate Operand(ts: seq<Symbol>) {
    AllApart(ts) && StartsOperand(ts) && EndsOperand(ts)
  }

  lemma OperandConcat(a: seq<Symbol>, sep: Symbol, b: seq<Symbol>)
    requires Operand(a) && Operand(b) && (sep == TokOr || sep == TokAnd)
    ensures Operand(a + [sep] + b)
  {
  }

  lemma Regrouped(head: seq<Symbol>, sep: Symbol, a: seq<Symbol>, more: seq<Symbol>)
    ensures head + ([sep] + a + more) == head + [sep] + a + more
  {
  }

  lemma {:induction false} YieldValuesApart(head: seq<Symbol>, vs: seq<string>, k: nat)
    requires k <= |vs| && AllApart(head) && EndsOperand(head)
    ensures AllApart(head + YieldValues(vs, k)) && EndsOperand(head + YieldValues(vs, k))
    decreases |vs| - k
  {
    if k < |vs| {
      var next := head + [TokOr, TokValue(vs[k])];
      YieldValuesApart(next, vs, k + 1);
      assert head + ([TokOr, TokValue(vs[k])] + YieldValues(vs, k + 1)) == next + YieldValues(vs, k + 1);
    } else {
      assert head + YieldValues(vs, k) == head;
    }
  }

  lemma TestOperand(a: Atom)
    requires AtomOk(a) && a.Test?
    ensures Operand(YieldAtom(a))
  {
    var head := [TokValue(a.selector), TokOp(a.opText)];
    if a.args.Listed? {
      var vs := a.args.values;
      var open := [TokValue(a.selector), TokOp(a.opText), TokLParen, TokValue(vs[0])];
      YieldValuesApart(open, vs, 1);
      assert YieldAtom(a) == open + YieldValues(vs, 1) + [TokRParen];
    } else {
      assert YieldAtom(a) == head + [TokValue(a.args.value)];
    }
  }

  lemma {:induction false} AtomOperand(a: Atom)
    requires AtomOk(a)
    ensures Operand(YieldAtom(a))
    decreases a, 0
  {
    hide YieldDisj;
    if a.Test? {
      TestOperand(a);
    } else {
      DisjOperand(a.body);
    }
  }

  lemma {:induction false} FactorsOperand(head: seq<Symbol>, factors: seq<Atom>, k: nat)
    requires k <= |factors| && forall a | a in factors :: AtomOk(a)
    requires Operand(head)
    ensures Operand(head + YieldFactors(factors, k))
    decreases factors, |factors| - k
  {
    hide YieldAtom, AtomOk, Operand;
    if k < |factors| {
      AtomOperand(factors[k]);
      OperandConcat(head, TokAnd, YieldAtom(factors[k]));
      FactorsOperand(head + [TokAnd] + YieldAtom(factors[k]), factors, k + 1);
      Regrouped(head, TokAnd, YieldAtom(factors[k]), YieldFactors(factors, k + 1));
    } else {
      assert head + YieldFactors(factors, k) == head;
    }
  }

  lemma {:induction false} TermsOperand(head: seq<Symbol>, terms: seq<Conj>, k: nat)
    requires k <= |terms| && forall c | c in terms :: ConjOk(c)
    requires Operand(head)
    ensures Operand(head + YieldTerms(terms, k))
    decreases terms, |terms| - k
  {
    hide YieldAtom, AtomOk, Operand;
    if k < |terms| {
      var c := terms[k];
      assert ConjOk(c) && AtomOk(c.factors[0]);
      AtomOperand(c.factors[0]);
      FactorsOperand(YieldAtom(c.factors[0]), c.factors, 1);
      OperandConcat(head, TokOr, YieldConj(c));
      TermsOperand(head + [TokOr] + YieldConj(c), terms, k + 1);
      Regrouped(head, TokOr, YieldConj(c), YieldTerms(terms, k + 1));
    } else {
      assert head + YieldTerms(terms, k) == head;
    }
  }

  lemma {:induction false} DisjOperand(d: Disj)
    requires DisjOk(d)
    ensures Operand(YieldDisj(d))
    decreases d, 0
  {
    hide YieldAtom, AtomOk, Operand;
    var c := d.terms[0];
    assert ConjOk(c) && AtomOk(c.factors[0]);
    AtomOperand(c.factors[0]);
    FactorsOperand(YieldAtom(c.factors[0]), c.factors, 1);
    TermsOperand(YieldConj(c), d.terms, 1);
  }

  lemma TailApart(a: Symbol, ts: seq<Symbol>)
    requires ts != [] && AllApart([a] + ts)
    ensures Apart(a, ts[0]) && AllApart(ts)
  {
    var all := [a] + ts;
    assert Apart(all[0], all[1]);
    forall i | 0 <= i < |ts| - 1 ensures Apart(ts[i], ts[i + 1]) {
      assert Apart(all[i + 1], all[i + 2]);
    }
  }

  /** Pieces whose neighbours are apart need no spaces between them. */
  lemma {:induction false} ApartIsWellSpaced(ps: seq<Piece>, u: string)
    requires forall p | p in ps :: PieceOk(p)
    requires AllApart(Symbols(ps))
    requires ps != [] ==> Delimits(u, ps[|ps| - 1].sym, ps[|ps| - 1].style)
    ensures WellSpaced(ps, u)
  {
    hide Delimits, PieceOk, Spell, Apart, AllApart;
    var ts := Symbols(ps);
    if |ps| == 1 {
      assert Render(ps[1..]) + u == u;
    } else if |ps| > 1 {
      var b, more := ps[1], ps[1..];
      assert ts == [ts[0]] + Symbols(more);
      TailApart(ts[0], Symbols(more));
      ApartIsWellSpaced(more, u);
      ApartDelimits(ps[0], b, Render(more[1..]) + u);
      RenderHead(more, u);
    }
  }

  /** Any spelling of the symbols of a parse tree, with no spaces between them, parses to it. */
  lemma SpellingParses(ps: seq<Piece>, d: Disj)
    requires DisjOk(d) && Symbols(ps) == YieldDisj(d) && forall p | p in ps :: PieceOk(p)
    ensures ParseText(Render(ps)) == Ok(TreeDisj(d))
  {
    hide Stream, Render, PieceOk, YieldDisj, TreeDisj, DisjOk, ParseDisj, Delimits, AllApart, Closes;
    DisjOperand(d);
    OperandEnds(ps, d);
    ApartIsWellSpaced(ps, "");
    RenderReads(ps, "");
    SpacesReadAsEnd("");
    assert Render(ps) + "" == Render(ps);
    DisjComplete(d, [TokEOF]);
  }

  lemma OperandEnds(ps: seq<Piece>, d: Disj)
    requires DisjOk(d) && Symbols(ps) == YieldDisj(d) && Operand(YieldDisj(d))
    ensures ps != [] && AllApart(Symbols(ps)) && Delimits("", ps[|ps| - 1].sym, ps[|ps| - 1].style)
  {
    hide YieldDisj, DisjOk;
  }

  // ----- aliases -----

  /** The same symbol up to the choice of operator alias. */
  predicate Alike(a: Symbol, b: Symbol) {
    a == b || (a.TokOp? && b.TokOp? && LookupOperator(a.text).Ok? && LookupOperator(a.text) == LookupOperator(b.text))
  }

  ghost predicate AllAlike(ts: seq<Symbol>, us: seq<Symbol>) {
    |ts| == |us| && forall i | 0 <= i < |ts| :: Alike(ts[i], us[i])
  }

  lemma {:induction false} ValuesAlike(vs: seq<string>, ts: seq<Symbol>, us: seq<Symbol>)
    requires AllAlike(ts, us)
    ensures ParseValues(vs, ts).Parsed? == ParseValues(vs, us).Parsed?
    ensures ParseValues(vs, ts).Parsed? ==>
      && ParseValues(vs, ts).tree == ParseValues(vs, us).tree
      && AllAlike(ParseValues(vs, ts).rest, ParseValues(vs, us).rest)
    decreases |ts|
  {
    if |ts| >= 2 {
      assert Alike(ts[0], us[0]) && Alike(ts[1], us[1]);
      if ts[0].TokValue? && ts[1] == TokOr {
        ValuesAlike(vs + [ts[0].text], ts[2..], us[2..]);
      }
    }
  }

  lemma {:induction false} TestAlike(ts: seq<Symbol>, us: seq<Symbol>)
    requires AllAlike(ts, us)
    ensures ParseTest(ts).Parsed? == ParseTest(us).Parsed?
    ensures ParseTest(ts).Parsed? ==>
      TreeAtom(ParseTest(ts).tree) == TreeAtom(ParseTest(us).tree) && AllAlike(ParseTest(ts).rest, ParseTest(us).rest)
  {
    hide ParseValues;
    if |ts| >= 2 {
      assert Alike(ts[0], us[0]) && Alike(ts[1], us[1]);
      if |ts| >= 3 {
        assert Alike(ts[2], us[2]) && ts[2..][0] == ts[2] && us[2..][0] == us[2];
        assert AllAlike(ts[3..], us[3..]);
        assert ts[2..][1..] == ts[3..] && us[2..][1..] == us[3..];
        ValuesAlike([], ts[3..], us[3..]);
      }
    }
  }

  lemma {:induction false} AtomAlike(ts: seq<Symbol>, us: seq<Symbol>)
    requires AllAlike(ts, us)
    ensures ParseAtom(ts).Parsed? == ParseAtom(us).Parsed?
    ensures ParseAtom(ts).Parsed? ==>
      TreeAtom(ParseAtom(ts).tree) == TreeAtom(ParseAtom(us).tree) && AllAlike(ParseAtom(ts).rest, ParseAtom(us).rest)
    decreases |ts|, 1
  {
    hide ParseDisj, ParseTest;
    if ts != [] { assert Alike(ts[0], us[0]); }
    if At(ts, TokLParen) {
      DisjAlike(ts[1..], us[1..]);
      var p, q := ParseDisj(ts[1..]), ParseDisj(us[1..]);
      if p.Parsed? && p.rest != [] { assert Alike(p.rest[0], q.rest[0]); }
    } else {
      TestAlike(ts, us);
    }
  }

  lemma {:induction false} FactorsAlike(fs: seq<Atom>, gs: seq<Atom>, ts: seq<Symbol>, us: seq<Symbol>)
    requires AllAlike(ts, us) && fs != [] && |fs| == |gs|
    requires (forall a | a in fs :: AtomOk(a)) && (forall a | a in gs :: AtomOk(a))
    requires TreeFactors(fs) == TreeFactors(gs)
    ensures ParseFactors(fs, ts).Parsed? == ParseFactors(gs, us).Parsed?
    ensures ParseFactors(fs, ts).Parsed? ==>
      && TreeConj(ParseFactors(fs, ts).tree) == TreeConj(ParseFactors(gs, us).tree)
      && AllAlike(ParseFactors(fs, ts).rest, ParseFactors(gs, us).rest)
    decreases |ts|, 3
  {
    hide ParseAtom, TreeAtom, AtomOk;
    if ts != [] { assert Alike(ts[0], us[0]); }
    if At(ts, TokAnd) {
      AtomAlike(ts[1..], us[1..]);
      var p, q := ParseAtom(ts[1..]), ParseAtom(us[1..]);
      if p.Parsed? {
        forall i | 0 <= i <= |fs| ensures TreeFactors(fs + [p.tree])[i] == TreeFactors(gs + [q.tree])[i] {
          if i < |fs| { assert TreeFactors(fs)[i] == TreeFactors(gs)[i]; }
        }
        FactorsAlike(fs + [p.tree], gs + [q.tree], p.rest, q.rest);
      }
    } else {
      assert TreeFactors(fs)[0] == TreeFactors(gs)[0];
    }
  }

  lemma {:induction false} ConjAlike(ts: seq<Symbol>, us: seq<Symbol>)
    requires AllAlike(ts, us)
    ensures ParseConj(ts).Parsed? == ParseConj(us).Parsed?
    ensures ParseConj(ts).Parsed? ==>
      TreeConj(ParseConj(ts).tree) == TreeConj(ParseConj(us).tree) && AllAlike(ParseConj(ts).rest, ParseConj(us).rest)
    decreases |ts|, 2
  {
    hide ParseAtom, TreeAtom, AtomOk;
    AtomAlike(ts, us);
    var p, q := ParseAtom(ts), ParseAtom(us);
    if p.Parsed? {
      assert TreeFactors([p.tree]) == [TreeAtom(p.tree)] && TreeFactors([q.tree]) == [TreeAtom(q.tree)];
      FactorsAlike([p.tree], [q.tree], p.rest, q.rest);
    }
  }

  lemma {:induction false} TermsAlike(cs: seq<Conj>, ds: seq<Conj>, ts: seq<Symbol>, us: seq<Symbol>)
    requires AllAlike(ts, us) && cs != [] && |cs| == |ds|
    requires (forall c | c in cs :: ConjOk(c)) && (forall c | c in ds :: ConjOk(c))
    requires TreeTerms(cs) == TreeTerms(ds)
    ensures ParseTerms(cs, ts).Parsed? == ParseTerms(ds, us).Parsed?
    ensures ParseTerms(cs, ts).Parsed? ==>
      && TreeDisj(ParseTerms(cs, ts).tree) == TreeDisj(ParseTerms(ds, us).tree)
      && AllAlike(ParseTerms(cs, ts).rest, ParseTerms(ds, us).rest)
    decreases |ts|, 4
  {
    hide ParseConj, TreeConj, ConjOk;
    if ts != [] { assert Alike(ts[0], us[0]); }
    if At(ts, TokOr) {
      ConjAlike(ts[1..], us[1..]);
      var p, q := ParseConj(ts[1..]), ParseConj(us[1..]);
      if p.Parsed? {
        forall i | 0 <= i <= |cs| ensures TreeTerms(cs + [p.tree])[i] == TreeTerms(ds + [q.tree])[i] {
          if i < |cs| { assert TreeTerms(cs)[i] == TreeTerms(ds)[i]; }
        }
        TermsAlike(cs + [p.tree], ds + [q.tree], p.rest, q.rest);
      }
    } else {
      assert TreeTerms(cs)[0] == TreeTerms(ds)[0];
    }
  }

  lemma {:induction false} DisjAlike(ts: seq<Symbol>, us: seq<Symbol>)
    requires AllAlike(ts, us)
    ensures ParseDisj(ts).Parsed? == ParseDisj(us).Parsed?
    ensures ParseDisj(ts).Parsed? ==>
      TreeDisj(ParseDisj(ts).tree) == TreeDisj(ParseDisj(us).tree) && AllAlike(ParseDisj(ts).rest, ParseDisj(us).rest)
    decreases |ts|, 3
  {
    hide ParseConj, TreeConj, ConjOk;
    ConjAlike(ts, us);
    var p, q := ParseConj(ts), ParseConj(us);
    if p.Parsed? {
      assert TreeTerms([p.tree]) == [TreeConj(p.tree)] && TreeTerms([q.tree]) == [TreeConj(q.tree)];
      TermsAlike([p.tree], [q.tree], p.rest, q.rest);
    }
  }

  /** The parse depends only on token kinds and texts, with aliases collapsed. */
  lemma ParseSeesThroughAliases(ts: seq<Symbol>, us: seq<Symbol>)
    requires AllAlike(ts, us)
    ensures ParseAll(ts) == ParseAll(us)
  {
    hide ParseDisj, TreeDisj;
    DisjAlike(ts, us);
    var p, q := ParseDisj(ts), ParseDisj(us);
    if p.Parsed? && |p.rest| == 1 {
      assert Alike(p.rest[0], q.rest[0]);
    }
  }

  // ----- the main result -----

  lemma AlikeKeepsShape(ts: seq<Symbol>, us: seq<Symbol>)
    requires AllAlike(ts, us)
    ensures AllApart(ts) ==> AllApart(us)
    ensures EndsOperand(ts) ==> EndsOperand(us)
  {
    if AllApart(ts) {
      forall i | 0 <= i < |us| - 1 ensures Apart(us[i], us[i + 1]) {
        assert Apart(ts[i], ts[i + 1]) && Alike(ts[i], us[i]) && Alike(ts[i + 1], us[i + 1]);
      }
    }
    if ts != [] { assert Alike(ts[|ts| - 1], us[|us| - 1]); }
  }

  /** Rewriting an accepted text token by token, with any spaces between tokens, any quoting
      and escaping of each value and any alias of each operator, keeps its syntax tree. */
  lemma RespellingKeepsParse(s: string, n: Node, ps: seq<Piece>, gap: string)
    requires ParseText(s) == Ok(n)
    requires forall p | p in ps :: PieceOk(p)
    requires AllAlike(Stream(s), Symbols(ps) + [TokEOF]) && IsSpaces(gap)
    ensures ParseText(Render(ps) + gap) == Ok(n)
  {
    hide Stream, ParseDisj, YieldDisj, TreeDisj, DisjOk, PieceOk, Render, Alike;
    var ts := Stream(s);
    ParseIffDerives(ts, n);
    var d :| DisjOk(d) && ts == YieldDisj(d) + [TokEOF] && n == TreeDisj(d);
    DisjOperand(d);
    forall i | 0 <= i < |ps| ensures Alike(YieldDisj(d)[i], Symbols(ps)[i]) {
      assert Alike(ts[i], (Symbols(ps) + [TokEOF])[i]);
    }
    AlikeKeepsShape(YieldDisj(d), Symbols(ps));
    assert Closes(Symbols(ps)[|ps| - 1]);
    SpacesDelimit(ps[|ps| - 1], gap);
    ApartIsWellSpaced(ps, gap);
    RenderReads(ps, gap);
    SpacesReadAsEnd(gap);
    ParseSeesThroughAliases(ts, Symbols(ps) + [TokEOF]);
  }
}
