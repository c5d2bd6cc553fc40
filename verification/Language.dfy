/** Which texts are RSQL: the spellings of derivable symbol sequences and no other text, so that
    everything the tokenizer and the parser reject is spelled out too (rsql/lex.go:41-175,
    rsql/parse.go:7-152). */
module Language {
  import opened Results
  import opened Runes
  import opened Ordering
  import opened Syntax
  import opened Lexing
  import opened Grammar
  import opened Parsing
  import opened Spelling
  import opened Echoes

  // ----- characters -----

  /** The characters with a meaning of their own. */
  predicate Special(r: char) {
    r in "\"'();,=!~<>"
  }

  /** The white space of Unicode, by code point. */
  predicate Blank(r: char) {
    var c := r as int;
    || c in {0x9, 0xA, 0xB, 0xC, 0xD, 0x20, 0x85, 0xA0, 0x1680}
    || 0x2000 <= c <= 0x200A
    || c in {0x2028, 0x2029, 0x202F, 0x205F, 0x3000}
  }

  lemma CharacterTables(r: char)
    ensures IsReserved(r) <==> Special(r)
    ensures IsSpace(r) <==> Blank(r)
  {
  }

  /** A character can stand unescaped in a bare value exactly when it is not special, not white
      space and no backslash; exactly the blank ones are skipped. */
  lemma CharactersRead(r: char)
    ensures Stream(['x', r]) == [TokValue(['x', r]), TokEOF] <==> !Special(r) && !Blank(r) && r != '\\'
    ensures Stream([r]) == [TokEOF] <==> Blank(r)
  {
    hide Special, Blank, Stream;
    CharacterTables(r);
    SoleCharacter(r);
    PairOfCharacters(r);
  }

  lemma PairOfCharacters(r: char)
    ensures Stream(['x', r]) == [TokValue(['x', r]), TokEOF] <==> !IsReserved(r) && !IsSpace(r) && r != '\\'
  {
    hide Stream, IsReserved, IsSpace, Bare;
    var s := ['x', r];
    BarePair(r);
    PairLexeme(s);
    if Bare(s).NoSpan? {
      BadStream(s);
    } else {
      assert Scan(s) == Scanned(TokValue(Bare(s).text), 0, Bare(s).len);
      PieceHead(s);
      if Bare(s).len == 2 {
        assert s[2..] == "";
        SpacesReadAsEnd("");
      } else {
        assert Stream(s)[0] == TokValue("x") && |"x"| == 1;
      }
    }
  }

  lemma PairLexeme(s: string)
    requires s != "" && s[0] == 'x'
    ensures Gap(s) == 0 && s[0..] == s && Lexeme(s) == BareLexeme(s)
  {
    hide Bare;
  }

  lemma BadStream(s: string)
    requires Scan(s).ScanError?
    ensures Stream(s) == [TokBad]
  {
    hide Scan;
  }

  lemma PieceHead(s: string)
    requires Scan(s).Scanned? && !Scan(s).sym.TokEOF?
    ensures Stream(s) == [Scan(s).sym] + Stream(s[Scan(s).skip + Scan(s).len..])
  {
    hide Scan;
  }

  lemma BarePair(r: char)
    ensures Bare(['x', r]) ==
      if r == '\\' then NoSpan else if IsSpace(r) || IsReserved(r) then Span("x", 1) else Span(['x', r], 2)
  {
    var s := ['x', r];
    assert s[1..] == [r] && [r][1..] == "";
    assert Bare([r]) == if r == '\\' then NoSpan else if IsSpace(r) || IsReserved(r) then Span("", 0) else Span([r], 1);
    assert "x" + [r] == s;
  }

  lemma SoleCharacter(r: char)
    ensures Stream([r]) == [TokEOF] <==> IsSpace(r)
  {
    if IsSpace(r) {
      SpacesReadAsEnd([r]);
    } else {
      assert Gap([r]) == 0;
      hide Lexeme;
      assert Scan([r]).ScanError? || !Scan([r]).sym.TokEOF?;
    }
  }

  // ----- every token is the spelling of its symbol -----

  lemma Front(head: string, t: string, n: nat)
    requires n <= |t|
    ensures (head + t)[..|head| + n] == head + t[..n]
  {
  }

  lemma BareCases(s: string)
    requires Bare(s).Span?
    ensures Bare(s) == Span("", 0) || (exists r, escaped, t :: BareSplits(s, r, escaped, t))
  {
    hide BareSplits, IsSpace, IsReserved;
    if s != "" && s[0] == '\\' {
      BareSplitsAt(s, s[1], true, s[2..]);
    } else if s != "" && !IsSpace(s[0]) && !IsReserved(s[0]) {
      BareSplitsAt(s, s[0], false, s[1..]);
    }
  }

  lemma BareSplitsAt(s: string, r: char, escaped: bool, t: string)
    requires s == Rune(r, escaped) + t && Bare(s).Span?
    requires escaped || (r != '\\' && !IsSpace(r) && !IsReserved(r))
    ensures BareSplits(s, r, escaped, t)
  {
    hide Bare, IsSpace, IsReserved;
    BareRuneReads(r, escaped, t);
  }

  /** The first character of a bare value, as it is written, and the text behind it. */
  ghost predicate BareSplits(s: string, r: char, escaped: bool, t: string) {
    && (escaped || (r != '\\' && !IsSpace(r) && !IsReserved(r)))
    && s == Rune(r, escaped) + t && |t| < |s|
    && Bare(t).Span? && Bare(s) == Bare(t).After([r], |Rune(r, escaped)|)
  }

  lemma {:induction false} BareIsSpelled(s: string) returns (esc: seq<bool>)
    requires Bare(s).Span?
    ensures SpellUnquoted(Bare(s).text, esc) == s[..Bare(s).len]
    decreases |s|
  {
    hide Bare, Rune, IsSpace, IsReserved, SpellUnquoted;
    BareCases(s);
    if r, escaped, t :| BareSplits(s, r, escaped, t) {
      var rest := BareIsSpelled(t);
      esc := [escaped] + rest;
      SpelledRune(r, escaped, Bare(t).text, rest);
      Front(Rune(r, escaped), t, Bare(t).len);
    } else {
      esc := [];
      NothingSpells();
    }
  }

  lemma NothingSpells()
    ensures SpellUnquoted("", []) == ""
  {
  }

  lemma SpelledRune(r: char, escaped: bool, v: string, esc: seq<bool>)
    requires escaped || (r != '\\' && !IsSpace(r) && !IsReserved(r))
    ensures SpellUnquoted([r] + v, [escaped] + esc) == Rune(r, escaped) + SpellUnquoted(v, esc)
  {
    hide IsSpace, IsReserved;
    assert ([r] + v)[1..] == v && Unmark([escaped] + esc) == esc;
  }

  lemma QuotedRune(r: char, q: char, escaped: bool, v: string, esc: seq<bool>)
    requires escaped || (r != '\\' && r != q)
    ensures SpellInQuotes([r] + v, q, [escaped] + esc) == Rune(r, escaped) + SpellInQuotes(v, q, esc)
  {
    assert ([r] + v)[1..] == v && Unmark([escaped] + esc) == esc;
  }

  lemma QuotedCases(s: string, q: char)
    requires Quoted(s, q).Span?
    ensures
      || (Quoted(s, q) == Span("", 1) && s[0] == q)
      || (exists r, escaped, t :: QuotedSplits(s, q, r, escaped, t))
  {
    if s[0] == '\\' {
      assert s == Rune(s[1], true) + s[2..];
      QuotedRuneReads(s[1], q, true, s[2..]);
      assert QuotedSplits(s, q, s[1], true, s[2..]);
    } else if s[0] != q {
      assert s == Rune(s[0], false) + s[1..];
      QuotedRuneReads(s[0], q, false, s[1..]);
      assert QuotedSplits(s, q, s[0], false, s[1..]);
    }
  }

  ghost predicate QuotedSplits(s: string, q: char, r: char, escaped: bool, t: string) {
    && (escaped || (r != '\\' && r != q))
    && s == Rune(r, escaped) + t && |t| < |s|
    && Quoted(t, q).Span? && Quoted(s, q) == Quoted(t, q).After([r], |Rune(r, escaped)|)
  }

  lemma {:induction false} QuotedIsSpelled(s: string, q: char) returns (esc: seq<bool>)
    requires Quoted(s, q).Span?
    ensures SpellInQuotes(Quoted(s, q).text, q, esc) + [q] == s[..Quoted(s, q).len]
    decreases |s|
  {
    hide Quoted, Rune, SpellInQuotes;
    QuotedCases(s, q);
    if r, escaped, t :| QuotedSplits(s, q, r, escaped, t) {
      var rest := QuotedIsSpelled(t, q);
      esc := [escaped] + rest;
      QuotedRune(r, q, escaped, Quoted(t, q).text, rest);
      Front(Rune(r, escaped), t, Quoted(t, q).len);
      ConcatAssociative(Rune(r, escaped), SpellInQuotes(Quoted(t, q).text, q, rest), [q]);
    } else {
      esc := [];
      NothingSpellsQuoted(q);
    }
  }

  lemma NothingSpellsQuoted(q: char)
    ensures SpellInQuotes("", q, []) + [q] == [q]
  {
  }

  lemma {:induction false} WordIsSpelled(s: string)
    requires Word(s).Span?
    ensures Word(s).text + "=" == s[..Word(s).len]
  {
    if s[0] != '=' {
      WordIsSpelled(s[1..]);
      assert s[..Word(s).len] == [s[0]] + s[1..][..Word(s[1..]).len];
    }
  }

  lemma OpIsSpelled(s: string)
    requires s != "" && (s[0] == '=' || s[0] == '!' || s[0] == '<' || s[0] == '>') && OpLexeme(s).Lexed?
    ensures OpLexeme(s).sym == TokOp(s[..OpLexeme(s).len])
  {
    hide Word;
    if s[0] == '=' && !(|s| >= 2 && s[1] == '=') {
      WordIsSpelled(s[1..]);
      var n := Word(s[1..]).len;
      assert s[..1 + n] == "=" + s[1..][..n];
      assert "=" + Word(s[1..]).text + "=" == "=" + (Word(s[1..]).text + "=");
    }
  }

  lemma TokenIsSpelled(s: string) returns (style: Style)
    requires s != "" && Lexeme(s).Lexed?
    ensures Spell(Lexeme(s).sym, style) == s[..Lexeme(s).len]
    ensures Lexeme(s).sym.TokValue? ==> PieceOk(Piece("", Lexeme(s).sym, style))
  {
    hide Bare, Quoted, OpLexeme, SpellUnquoted, SpellInQuotes;
    style := Unquoted([]);
    if s[0] == '(' || s[0] == ')' || s[0] == ';' || s[0] == ',' {
    } else if s[0] == '=' || s[0] == '!' || s[0] == '<' || s[0] == '>' {
      OpIsSpelled(s);
    } else if s[0] == '"' || s[0] == '\'' {
      var esc := QuotedIsSpelled(s[1..], s[0]);
      style := InQuotes(s[0], esc);
      var n := Quoted(s[1..], s[0]).len;
      assert s[..1 + n] == [s[0]] + s[1..][..n];
    } else {
      var esc := BareIsSpelled(s);
      style := Unquoted(esc);
    }
  }

  // ----- whole texts -----

  /** Some way to write the symbols, with any spaces between and around them, gives the text. */
  ghost predicate Spells(s: string, ts: seq<Symbol>) {
    exists ps, gap :: (forall p | p in ps :: PieceOk(p)) && Symbols(ps) == ts && IsSpaces(gap) && s == Render(ps) + gap
  }

  /** Symbols that can stand in a spelling. */
  ghost predicate Writable(ts: seq<Symbol>) {
    forall t | t in ts :: !t.TokEOF? && !t.TokBad? && (t.TokOp? ==> LookupOperator(t.text).Ok?)
  }

  lemma {:induction false} StreamIsSpelled(s: string, ts: seq<Symbol>)
    requires Stream(s) == ts + [TokEOF] && Writable(ts)
    ensures Spells(s, ts)
    decreases |s|
  {
    hide Scan, Stream, Spells;
    if ts == [] {
      assert ts + [TokEOF] == [TokEOF];
      NothingLeft(s);
      SpacesSpellNothing(s);
    } else {
      StreamSplits(s, ts);
      var found := Scan(s);
      var rest := s[found.skip + found.len..];
      StreamIsSpelled(rest, ts[1..]);
      SpellsMore(s, ts);
    }
  }

  lemma SpacesSpellNothing(s: string)
    requires IsSpaces(s)
    ensures Spells(s, [])
  {
    NothingRenders(s);
    assert Symbols([]) == [] && s == Render([]) + s;
  }

  lemma StreamSplits(s: string, ts: seq<Symbol>)
    requires ts != [] && Stream(s) == ts + [TokEOF] && Writable(ts)
    ensures Scan(s).Scanned? && Scan(s).sym == ts[0] && !ts[0].TokEOF? && Writable([ts[0]]) && Writable(ts[1..])
    ensures Stream(s[Scan(s).skip + Scan(s).len..]) == ts[1..] + [TokEOF]
  {
    hide Scan, LookupOperator;
    assert Stream(s)[0] == ts[0] && ts[0] in ts;
    PieceHead(s);
    assert Stream(s)[1..] == ts[1..] + [TokEOF];
  }

  lemma SpellsMore(s: string, ts: seq<Symbol>)
    requires ts != [] && Scan(s).Scanned? && Scan(s).sym == ts[0] && !ts[0].TokEOF? && Writable([ts[0]])
    requires Spells(s[Scan(s).skip + Scan(s).len..], ts[1..])
    ensures Spells(s, ts)
  {
    hide Scan, Render, PieceOk, Spell, Spells, Writable;
    var found := Scan(s);
    var p := FirstPiece(s);
    SliceAndRest(s, found);
    PieceSpells(p, s[found.skip + found.len..], ts[1..]);
    assert [p.sym] + ts[1..] == ts;
  }

  lemma PieceSpells(p: Piece, rest: string, ts: seq<Symbol>)
    requires PieceOk(p) && Spells(rest, ts)
    ensures Spells(p.gap + Spell(p.sym, p.style) + rest, [p.sym] + ts)
  {
    hide Render, PieceOk, Spell, IsSpaces;
    var ps, gap :| (forall q | q in ps :: PieceOk(q)) && Symbols(ps) == ts && IsSpaces(gap) && rest == Render(ps) + gap;
    var all := [p] + ps;
    assert all[1..] == ps;
    RenderHead(all, gap);
    assert Symbols(all) == [p.sym] + ts;
  }

  lemma NothingLeft(s: string)
    requires Stream(s) == [TokEOF]
    ensures IsSpaces(s)
  {
    hide Gap, Lexeme;
    if Scan(s).Scanned? && !Scan(s).sym.TokEOF? { PieceHead(s); }
    assert s[..|s|] == s;
  }

  lemma FirstPiece(s: string) returns (p: Piece)
    requires Scan(s).Scanned? && Writable([Scan(s).sym]) && !Scan(s).sym.TokEOF?
    ensures PieceOk(p) && p.sym == Scan(s).sym
    ensures p.gap + Spell(p.sym, p.style) == Slice(s, Scan(s)).0 + Slice(s, Scan(s)).1
  {
    hide Spell, Lexeme, LookupOperator, IsSpaces;
    var found := Scan(s);
    var style := TokenIsSpelled(s[found.skip..]);
    p := Piece(s[..found.skip], found.sym, style);
    assert found.sym in [found.sym];
    assert s[found.skip..][..found.len] == s[found.skip..found.skip + found.len];
  }

  lemma {:induction false} SpellsStreams(s: string, d: Disj)
    requires DisjOk(d) && Spells(s, YieldDisj(d))
    ensures Stream(s) == YieldDisj(d) + [TokEOF]
  {
    hide Stream, YieldDisj, DisjOk, PieceOk, Render;
    var ps, gap :| (forall p | p in ps :: PieceOk(p)) && Symbols(ps) == YieldDisj(d) && IsSpaces(gap)
                   && s == Render(ps) + gap;
    DisjOperand(d);
    SpacesDelimit(ps[|ps| - 1], gap);
    ApartIsWellSpaced(ps, gap);
    RenderReads(ps, gap);
    SpacesReadAsEnd(gap);
  }

  lemma {:induction false} ValuesWritable(vs: seq<string>, k: nat)
    requires k <= |vs|
    ensures Writable(YieldValues(vs, k))
    decreases |vs| - k
  {
    if k < |vs| { ValuesWritable(vs, k + 1); }
  }

  lemma {:induction false} AtomWritable(a: Atom)
    requires AtomOk(a)
    ensures Writable(YieldAtom(a))
    decreases a, 0
  {
    match a
    case Group(body) => DisjWritable(body);
    case Test(_, _, args) => if args.Listed? { ValuesWritable(args.values, 1); }
  }

  lemma {:induction false} FactorsWritable(factors: seq<Atom>, k: nat)
    requires k <= |factors| && forall a | a in factors :: AtomOk(a)
    ensures Writable(YieldFactors(factors, k))
    decreases factors, |factors| - k
  {
    hide YieldAtom, AtomOk;
    if k < |factors| {
      AtomWritable(factors[k]);
      FactorsWritable(factors, k + 1);
    }
  }

  lemma {:induction false} ConjWritable(c: Conj)
    requires ConjOk(c)
    ensures Writable(YieldConj(c))
    decreases c, 0
  {
    hide YieldAtom, AtomOk, YieldFactors;
    AtomWritable(c.factors[0]);
    FactorsWritable(c.factors, 1);
  }

  lemma {:induction false} TermsWritable(terms: seq<Conj>, k: nat)
    requires k <= |terms| && forall c | c in terms :: ConjOk(c)
    ensures Writable(YieldTerms(terms, k))
    decreases terms, |terms| - k
  {
    hide YieldConj, ConjOk;
    if k < |terms| {
      ConjWritable(terms[k]);
      TermsWritable(terms, k + 1);
    }
  }

  lemma {:induction false} DisjWritable(d: Disj)
    requires DisjOk(d)
    ensures Writable(YieldDisj(d))
    decreases d, 0
  {
    hide YieldConj, ConjOk, YieldTerms;
    ConjWritable(d.terms[0]);
    TermsWritable(d.terms, 1);
  }

  /** A text parses to a syntax tree exactly when it spells a parse tree that means it. So an
      unterminated quote, a trailing backslash, an unknown operator or a missing operand makes
      a text invalid, and nothing else does. */
  lemma {:induction false} ParseIffSpelled(s: string, n: Node)
    ensures ParseText(s) == Ok(n) <==> exists d :: DisjOk(d) && n == TreeDisj(d) && Spells(s, YieldDisj(d))
  {
    hide Stream, YieldDisj, TreeDisj, DisjOk, ParseAll, Spells, Writable;
    ParseTextIs(s);
    ParseIffDerives(Stream(s), n);
    if ParseText(s) == Ok(n) {
      var d :| DisjOk(d) && Stream(s) == YieldDisj(d) + [TokEOF] && n == TreeDisj(d);
      DisjWritable(d);
      StreamIsSpelled(s, YieldDisj(d));
    }
    if d :| DisjOk(d) && n == TreeDisj(d) && Spells(s, YieldDisj(d)) {
      SpellsStreams(s, d);
    }
  }

  lemma ParseTextIs(s: string)
    ensures ParseText(s) == ParseAll(Stream(s))
  {
  }

  // ----- operands, separators and brackets -----

  /** Two spelled sequences with a separator or bracket between them. */
  lemma SpellsBetween(x: string, xs: seq<Symbol>, sym: Symbol, y: string, ys: seq<Symbol>)
    requires Spells(x, xs) && Spells(y, ys)
    requires sym == TokAnd || sym == TokOr || sym == TokLParen || sym == TokRParen
    ensures Spells(x + (Spell(sym, Unquoted([])) + y), xs + ([sym] + ys))
  {
    hide Render, PieceOk, Spell, Symbols, IsSpaces;
    var ps, gap :| (forall p | p in ps :: PieceOk(p)) && Symbols(ps) == xs && IsSpaces(gap) && x == Render(ps) + gap;
    var p := Piece(gap, sym, Unquoted([]));
    SeparatorOk(p);
    hide Spells;
    PieceSpells(p, y, ys);
    SpellsBehind(ps, gap + Spell(sym, p.style) + y, [sym] + ys);
    ConcatAssociative(gap, Spell(sym, p.style), y);
    ConcatAssociative(Render(ps), gap, Spell(sym, p.style) + y);
  }

  lemma SpellsBehind(ps: seq<Piece>, y: string, ys: seq<Symbol>)
    requires Spells(y, ys) && forall p | p in ps :: PieceOk(p)
    ensures Spells(Render(ps) + y, Symbols(ps) + ys)
  {
    hide Render, PieceOk, Symbols, IsSpaces;
    var qs, gap :| (forall q | q in qs :: PieceOk(q)) && Symbols(qs) == ys && IsSpaces(gap) && y == Render(qs) + gap;
    SymbolsConcat(ps, qs);
    RenderConcat(ps, qs);
    ConcatAssociative(Render(ps), Render(qs), gap);
  }

  lemma SeparatorOk(p: Piece)
    requires p.sym == TokAnd || p.sym == TokOr || p.sym == TokLParen || p.sym == TokRParen
    requires IsSpaces(p.gap)
    ensures PieceOk(p) && Symbols([p]) == [p.sym]
  {
  }

  lemma SeparatorTexts()
    ensures Spell(TokAnd, Unquoted([])) == ";" && Spell(TokOr, Unquoted([])) == ","
    ensures Spell(TokLParen, Unquoted([])) == "(" && Spell(TokRParen, Unquoted([])) == ")"
    ensures Spells("", [])
  {
    SpacesSpellNothing("");
  }

  /** A text of one operand: a comparison, or anything valid in brackets. */
  ghost predicate IsOperand(x: string, n: Node) {
    || (ParseText(x) == Ok(n) && n.Comparison?)
    || exists y :: x == "(" + (y + ")") && ParseText(y) == Ok(n)
  }

  ghost predicate SpellsAtom(x: string, n: Node, a: Atom) {
    AtomOk(a) && TreeAtom(a) == n && Spells(x, YieldAtom(a))
  }

  lemma {:induction false} OperandIsAtom(x: string, n: Node) returns (a: Atom)
    requires IsOperand(x, n)
    ensures SpellsAtom(x, n, a)
  {
    hide ParseText, Spells, YieldDisj, TreeDisj, DisjOk;
    if ParseText(x) == Ok(n) && n.Comparison? {
      ParseIffSpelled(x, n);
      var d :| DisjOk(d) && n == TreeDisj(d) && Spells(x, YieldDisj(d));
      a := SoleAtom(d);
    } else {
      var y :| x == "(" + (y + ")") && ParseText(y) == Ok(n);
      ParseIffSpelled(y, n);
      var d :| DisjOk(d) && n == TreeDisj(d) && Spells(y, YieldDisj(d));
      a := Group(d);
      SeparatorTexts();
      assert ")" + "" == ")" && "" + x == x;
      assert [TokRParen] + [] == [TokRParen];
      SpellsBetween(y, YieldDisj(d), TokRParen, "", []);
      SpellsBetween("", [], TokLParen, y + ")", YieldDisj(d) + [TokRParen]);
      assert [] + ([TokLParen] + (YieldDisj(d) + [TokRParen])) == YieldAtom(a);
    }
  }

  /** A parse tree that means a comparison is one operand. */
  lemma SoleAtom(d: Disj) returns (a: Atom)
    requires DisjOk(d) && TreeDisj(d).Comparison?
    ensures AtomOk(a) && TreeAtom(a) == TreeDisj(d) && YieldAtom(a) == YieldDisj(d)
  {
    hide YieldAtom, TreeAtom, AtomOk;
    var c := d.terms[0];
    assert ConjOk(c) && |d.terms| == 1 && TreeConj(c) == TreeDisj(d) && |c.factors| == 1;
    a := c.factors[0];
    assert YieldDisj(d) == YieldConj(c) + [] && YieldConj(c) == YieldAtom(a) + [];
  }

  lemma {:induction false} FactorsSpelled(xs: seq<string>, ns: seq<Node>, atoms: seq<Atom>, k: nat)
    requires k < |xs| == |ns| == |atoms| && forall i | 0 <= i < |xs| :: SpellsAtom(xs[i], ns[i], atoms[i])
    ensures forall a | a in atoms :: AtomOk(a)
    ensures Spells(Join(xs[k..], ";"), YieldAtom(atoms[k]) + YieldFactors(atoms, k + 1))
    decreases |xs| - k
  {
    hide Spells, Spell, YieldAtom, AtomOk, TreeAtom, Join;
    JoinTail(xs, k, ";");
    assert SpellsAtom(xs[k], ns[k], atoms[k]);
    if k + 1 < |xs| {
      FactorsSpelled(xs, ns, atoms, k + 1);
      SeparatorTexts();
      SpellsBetween(xs[k], YieldAtom(atoms[k]), TokAnd, Join(xs[k + 1..], ";"),
                    YieldAtom(atoms[k + 1]) + YieldFactors(atoms, k + 2));
      assert [TokAnd] + (YieldAtom(atoms[k + 1]) + YieldFactors(atoms, k + 2)) == YieldFactors(atoms, k + 1);
    } else {
      assert xs[k] + "" == xs[k] && YieldAtom(atoms[k]) + [] == YieldAtom(atoms[k]);
    }
  }

  ghost predicate SpellsConj(x: string, n: Node, c: Conj) {
    ConjOk(c) && TreeConj(c) == n && Spells(x, YieldConj(c))
  }

  lemma {:induction false} TermsSpelled(xs: seq<string>, ns: seq<Node>, cs: seq<Conj>, k: nat)
    requires k < |xs| == |ns| == |cs| && forall i | 0 <= i < |xs| :: SpellsConj(xs[i], ns[i], cs[i])
    ensures forall c | c in cs :: ConjOk(c)
    ensures Spells(Join(xs[k..], ","), YieldConj(cs[k]) + YieldTerms(cs, k + 1))
    decreases |xs| - k
  {
    hide Spells, Spell, YieldConj, ConjOk, TreeConj, Join;
    JoinTail(xs, k, ",");
    assert SpellsConj(xs[k], ns[k], cs[k]);
    if k + 1 < |xs| {
      TermsSpelled(xs, ns, cs, k + 1);
      SeparatorTexts();
      SpellsBetween(xs[k], YieldConj(cs[k]), TokOr, Join(xs[k + 1..], ","),
                    YieldConj(cs[k + 1]) + YieldTerms(cs, k + 2));
      assert [TokOr] + (YieldConj(cs[k + 1]) + YieldTerms(cs, k + 2)) == YieldTerms(cs, k + 1);
    } else {
      assert xs[k] + "" == xs[k] && YieldConj(cs[k]) + [] == YieldConj(cs[k]);
    }
  }

  /** A group, or its operand if it has only one. */
  function AndOf(ns: seq<Node>): Node {
    if |ns| == 1 then ns[0] else And(ns)
  }

  function OrOf(ns: seq<Node>): Node {
    if |ns| == 1 then ns[0] else Or(ns)
  }

  ghost predicate AreOperands(xs: seq<string>, ns: seq<Node>) {
    xs != [] && |xs| == |ns| && forall i | 0 <= i < |xs| :: IsOperand(xs[i], ns[i])
  }

  lemma {:induction false} OperandsAreAtoms(xs: seq<string>, ns: seq<Node>) returns (atoms: seq<Atom>)
    requires |xs| == |ns| && forall i | 0 <= i < |xs| :: IsOperand(xs[i], ns[i])
    ensures |atoms| == |xs| && forall i | 0 <= i < |xs| :: SpellsAtom(xs[i], ns[i], atoms[i])
  {
    hide IsOperand, SpellsAtom;
    atoms := [];
    if xs != [] {
      var a := OperandIsAtom(xs[0], ns[0]);
      var more := OperandsAreAtoms(xs[1..], ns[1..]);
      atoms := [a] + more;
    }
  }

  lemma {:induction false} OperandsAreConj(xs: seq<string>, ns: seq<Node>) returns (c: Conj)
    requires AreOperands(xs, ns)
    ensures SpellsConj(Join(xs, ";"), AndOf(ns), c)
  {
    hide IsOperand, Spells, YieldAtom, TreeAtom, AtomOk, Join;
    var atoms := OperandsAreAtoms(xs, ns);
    FactorsSpelled(xs, ns, atoms, 0);
    assert xs[0..] == xs;
    c := Conj(atoms);
    forall i | 0 <= i < |ns| ensures TreeFactors(atoms)[i] == ns[i] {
      assert SpellsAtom(xs[i], ns[i], atoms[i]);
    }
    assert TreeFactors(atoms) == ns;
  }

  lemma {:induction false} RowsAreConjs(rows: seq<seq<string>>, nodes: seq<seq<Node>>) returns (cs: seq<Conj>)
    requires |rows| == |nodes| && forall i | 0 <= i < |rows| :: AreOperands(rows[i], nodes[i])
    ensures |cs| == |rows| && forall i | 0 <= i < |rows| :: SpellsConj(Join(rows[i], ";"), AndOf(nodes[i]), cs[i])
  {
    hide IsOperand, SpellsConj, Join;
    cs := [];
    if rows != [] {
      var c := OperandsAreConj(rows[0], nodes[0]);
      var more := RowsAreConjs(rows[1..], nodes[1..]);
      cs := [c] + more;
      forall i | 0 <= i < |rows| ensures SpellsConj(Join(rows[i], ";"), AndOf(nodes[i]), cs[i]) {
        if i > 0 { assert rows[i] == rows[1..][i - 1] && nodes[i] == nodes[1..][i - 1]; }
      }
    }
  }

  function AndTexts(rows: seq<seq<string>>): (r: seq<string>)
    ensures |r| == |rows| && forall i | 0 <= i < |rows| :: r[i] == Join(rows[i], ";")
  {
    seq(|rows|, i requires 0 <= i < |rows| => Join(rows[i], ";"))
  }

  function AndNodes(nodes: seq<seq<Node>>): (r: seq<Node>)
    ensures |r| == |nodes| && forall i | 0 <= i < |nodes| :: r[i] == AndOf(nodes[i])
  {
    seq(|nodes|, i requires 0 <= i < |nodes| => AndOf(nodes[i]))
  }

  /** Precedence: operands joined by ';' joined by ',' parse to the OR of the ANDs, in order, a
      group of one being its operand. */
  lemma {:induction false} SeparatorsBind(rows: seq<seq<string>>, nodes: seq<seq<Node>>)
    requires rows != [] && |rows| == |nodes| && forall i | 0 <= i < |rows| :: AreOperands(rows[i], nodes[i])
    ensures ParseText(Join(AndTexts(rows), ",")) == Ok(OrOf(AndNodes(nodes)))
  {
    hide AreOperands, Spells, YieldConj, TreeConj, ConjOk, Join, ParseText, AndOf;
    var cs := RowsAreConjs(rows, nodes);
    var xs, ns := AndTexts(rows), AndNodes(nodes);
    assert forall i | 0 <= i < |xs| :: SpellsConj(xs[i], ns[i], cs[i]);
    TermsSpelled(xs, ns, cs, 0);
    assert xs[0..] == xs;
    var d := Disj(cs);
    assert TreeTerms(cs) == ns;
    assert DisjOk(d) && TreeDisj(d) == OrOf(ns) && Spells(Join(xs, ","), YieldDisj(d));
    ParseIffSpelled(Join(xs, ","), OrOf(ns));
  }
}
