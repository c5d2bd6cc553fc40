/** `literal` against the lexer (rsql/canonical.go:54-65, rsql/lex.go:120-175): exactly which
    texts are read back as themselves, and what goes wrong with the others. */
module Literals {
  import opened Runes
  import opened Syntax
  import opened Lexing
  import opened Spelling
  import opened Canonicals

  /** The texts whose literal is read back: those with a reserved character, ' ', '\t' or '\n',
      which get quoted, and those with nothing that would need quoting or escaping. Left out are
      the empty text and the unquoted texts with a backslash or with another space. */
  predicate Safe(v: string) {
    || (exists i | 0 <= i < |v| :: IsReserved(v[i]) || v[i] == ' ' || v[i] == '\t' || v[i] == '\n')
    || (v != "" && forall i | 0 <= i < |v| :: v[i] != '\\' && !IsSpace(v[i]))
  }

  /** The printer quotes exactly the safe texts that could not be lexed bare. */
  lemma SafeIsQuotedOrBare(v: string)
    ensures Safe(v) <==> NeedsQuotes(v) || IsBare(v)
    ensures NeedsQuotes(v) ==> !IsBare(v)
    ensures IsBare(v) ==> LiteralText(v) == v
  {
    hide Escape;
    assert IsSpace(' ') && IsSpace('\t') && IsSpace('\n');
    if ' ' in v { var i :| 0 <= i < |v| && v[i] == ' '; }
    if '\t' in v { var i :| 0 <= i < |v| && v[i] == '\t'; }
    if '\n' in v { var i :| 0 <= i < |v| && v[i] == '\n'; }
    if HasReserved(v) { var i :| 0 <= i < |v| && IsReserved(v[i]); }
  }

  lemma EscapeOne(r: char)
    ensures Escape([r]) == if r == '\\' || r == '"' then ['\\', r] else [r]
  {
    assert [r][1..] == "";
  }

  lemma EscapeFirst(v: string)
    requires v != ""
    ensures Escape(v) == Escape([v[0]]) + Escape(v[1..])
  {
    EscapeOne(v[0]);
  }

  /** Inside the quotes only '\\' and '"' are changed, by a backslash in front. */
  lemma {:induction false} EscapeConcat(a: string, b: string)
    ensures Escape(a + b) == Escape(a) + Escape(b)
    ensures |a| == 1 ==> Escape(a) == if a[0] == '\\' || a[0] == '"' then ['\\', a[0]] else a
  {
    hide Escape;
    if a == "" {
      EscapeNothing();
      assert a + b == b && "" + Escape(b) == Escape(b);
    } else {
      EscapeConcat(a[1..], b);
      EscapeFirst(a);
      EscapeFirst(a + b);
      EscapeOne(a[0]);
      assert (a + b)[0] == a[0] && (a + b)[1..] == a[1..] + b;
      assert |a| == 1 ==> a == [a[0]];
      ConcatAssociative(Escape([a[0]]), Escape(a[1..]), Escape(b));
    }
  }

  lemma EscapeNothing()
    ensures Escape("") == ""
  {
  }

  function LiteralStyle(v: string): Style {
    if NeedsQuotes(v) then InQuotes('"', []) else Unquoted([])
  }

  lemma {:induction false} EscapeSpells(v: string)
    ensures Escape(v) == SpellInQuotes(v, '"', [])
  {
    if v != "" {
      EscapeSpells(v[1..]);
    }
  }

  lemma {:induction false} BareSpells(v: string)
    requires forall i | 0 <= i < |v| :: !IsReserved(v[i]) && !IsSpace(v[i]) && v[i] != '\\'
    ensures SpellUnquoted(v, []) == v
  {
    if v != "" {
      BareSpells(v[1..]);
      assert v == [v[0]] + v[1..];
    }
  }

  /** The literal of a safe text is one of the spellings of that value. */
  lemma SafeLiteralSpells(v: string)
    requires Safe(v)
    ensures Spell(TokValue(v), LiteralStyle(v)) == LiteralText(v)
    ensures PieceOk(Piece("", TokValue(v), LiteralStyle(v)))
  {
    SafeIsQuotedOrBare(v);
    if NeedsQuotes(v) {
      EscapeSpells(v);
    } else {
      BareSpells(v);
    }
  }

  // ----- texts that are not safe -----

  lemma {:induction false} BareLosesEscapes(s: string)
    requires Bare(s).Span?
    ensures |Bare(s).text| <= Bare(s).len
    ensures |Bare(s).text| == Bare(s).len ==>
      forall i | 0 <= i < Bare(s).len :: s[i] == Bare(s).text[i] && !IsSpace(s[i]) && !IsReserved(s[i]) && s[i] != '\\'
  {
    if s != "" && s[0] == '\\' {
      BareLosesEscapes(s[2..]);
    } else if s != "" && !IsSpace(s[0]) && !IsReserved(s[0]) {
      BareLosesEscapes(s[1..]);
      var r, t := Bare(s), Bare(s[1..]);
      if |r.text| == r.len {
        forall i | 0 <= i < r.len ensures s[i] == r.text[i] && !IsSpace(s[i]) && !IsReserved(s[i]) && s[i] != '\\' {
          if i > 0 { assert s[i] == s[1..][i - 1] && r.text[i] == t.text[i - 1]; }
        }
      }
    }
  }

  /** A reserved rune read into a bare value shows in its text, further to the left. */
  lemma {:induction false} BareKeepsReserved(s: string, m: nat) returns (i: nat)
    requires Bare(s).Span? && m < Bare(s).len && IsReserved(s[m])
    ensures i < m && i < |Bare(s).text| && Bare(s).text[i] == s[m]
  {
    hide IsReserved;
    var step := if s[0] == '\\' then 2 else 1;
    if m == 1 && s[0] == '\\' {
      i := 0;
    } else {
      assert m >= step && s[step..][m - step] == s[m] by { BareStartsFree(s); }
      i := BareKeepsReserved(s[step..], m - step);
      i := i + 1;
    }
  }

  lemma BareStartsFree(s: string)
    requires Bare(s).Span? && Bare(s).len > 0
    ensures !IsReserved(s[0])
  {
  }

  lemma {:induction false} GapSkipsSpaces(v: string, u: string)
    requires IsSpaces(v)
    ensures Gap(v + u) == |v| + Gap(u)
  {
    if v == "" {
      assert v + u == u;
    } else {
      assert (v + u)[1..] == v[1..] + u;
      GapSkipsSpaces(v[1..], u);
    }
  }

  /** What may follow a literal in canonical output: nothing, or a reserved character that
      starts no value and no group. */
  predicate Ends(u: string) {
    u == "" || (IsReserved(u[0]) && u[0] != '"' && u[0] != '\'' && u[0] != '(')
  }

  lemma EndOpensNothing(u: string)
    requires Ends(u)
    ensures !Opens(Stream(u)[0])
  {
    if u != "" {
      assert !IsSpace(u[0]) && Gap(u) == 0 && u[0..] == u;
      if u[0] != '~' {
        assert Lexeme(u).Lexed? ==> !Opens(Lexeme(u).sym);
      } else {
        assert Bare(u) == Span("", 0);
      }
    }
  }

  lemma BareIsNotItself(v: string, g: nat, u: string)
    requires !Safe(v) && Ends(u) && g < |v|
    requires Bare((v + u)[g..]).Span?
    ensures Bare((v + u)[g..]).text != v
  {
    SafeIsQuotedOrBare(v);
    var w := (v + u)[g..];
    var r := Bare(w);
    if r.len > |v| - g {
      assert w[|v| - g] == u[0];
      var i := BareKeepsReserved(w, |v| - g);
      assert IsReserved(r.text[i]);
    } else {
      BareLosesEscapes(w);
      assert forall i | g <= i < |v| :: w[i - g] == v[i];
    }
  }

  /** Read where a canonical string has it, an unsafe text never yields its own value: the
      first symbol is another value, a lexical error, or what comes after it. */
  lemma {:induction false} UnsafeMisreads(v: string, u: string)
    requires !Safe(v) && Ends(u)
    ensures Stream(v + u)[0] != TokValue(v)
    ensures Opens(Stream(v + u)[0]) ==> Stream(v + u)[0].TokValue?
  {
    hide Bare, IsSpace, IsReserved, OpLexeme, QuotedLexeme, Safe;
    SafeIsQuotedOrBare(v);
    var s := v + u;
    var g := Gap(s);
    assert forall i | 0 <= i < |v| :: !IsReserved(v[i]);
    if g >= |v| {
      assert forall i | 0 <= i < |v| :: v[i] == s[..g][i];
      assert IsSpaces(v);
      BlankReads(v, u);
      EndOpensNothing(u);
    } else {
      assert s[g] == v[g] && s[g..][0] == v[g];
      PlainStart(s[g..]);
      if Bare(s[g..]).Span? {
        BareIsNotItself(v, g, u);
      }
    }
  }

  // ----- raw selectors -----

  /** The first symbol that is no '('. */
  function FirstPastParens(ts: seq<Symbol>): Symbol {
    if ts == [] then TokBad else if ts[0] == TokLParen then FirstPastParens(ts[1..]) else ts[0]
  }

  /** A rune read into a quoted value shows in its text, not further to the right. */
  lemma {:induction false} QuotedKeeps(s: string, q: char, m: nat) returns (i: nat)
    requires Quoted(s, q).Span? && m < Quoted(s, q).len && s[m] != q && s[m] != '\\'
    ensures i <= m && i < |Quoted(s, q).text| && Quoted(s, q).text[i] == s[m]
  {
    var step := if s[0] == '\\' then 2 else 1;
    if m < step {
      i := 0;
    } else {
      assert s[step..][m - step] == s[m];
      i := QuotedKeeps(s[step..], q, m - step);
      i := i + 1;
    }
  }

  /** A quoted value that starts inside `v` and runs over its end does not read `v`: the rune
      `u` starts with would have to occur ever further to the left in `v`. */
  lemma {:induction false} QuotedRunsOver(v: string, p: nat, q: char, u: string, i: nat)
    requires p < |v| && i <= |v| && u != "" && u[0] != q && u[0] != '\\'
    requires (v + u)[i] == u[0] && forall j | 0 <= j <= p :: v[j] != u[0]
    requires var r := Quoted(v[p + 1..] + u, q); r.Span? && r.len >= |v| - p
    ensures Quoted(v[p + 1..] + u, q).text != v
    decreases i
  {
    var s := v[p + 1..] + u;
    assert i > p && s[i - p - 1] == u[0];
    var k := QuotedKeeps(s, q, i - p - 1);
    if Quoted(s, q).text == v {
      QuotedRunsOver(v, p, q, u, k);
    }
  }

  lemma {:induction false} BareRunsOver(v: string, p: nat, u: string, i: nat)
    requires p <= i <= |v| && u != "" && IsReserved(u[0])
    requires (v + u)[i] == u[0] && forall j | 0 <= j < p :: v[j] != u[0]
    requires var r := Bare(v[p..] + u); r.Span? && r.len > |v| - p
    ensures Bare(v[p..] + u).text != v
    decreases i
  {
    hide IsReserved;
    var s := v[p..] + u;
    assert s[i - p] == u[0];
    var k := BareKeepsReserved(s, i - p);
    if Bare(s).text == v {
      BareRunsOver(v, p, u, k);
    }
  }

  lemma {:induction false} QuotedLosesQuotes(s: string, q: char)
    requires Quoted(s, q).Span?
    ensures |Quoted(s, q).text| < Quoted(s, q).len
  {
    if s[0] == '\\' {
      QuotedLosesQuotes(s[2..], q);
    } else if s[0] != q {
      QuotedLosesQuotes(s[1..], q);
    }
  }

  lemma QuotedIsNotItself(v: string, p: nat, q: char, u: string)
    requires p < |v| && u != "" && u[0] != q && u[0] != '\\'
    requires forall j | 0 <= j <= p :: v[j] != u[0]
    requires Quoted(v[p + 1..] + u, q).Span?
    ensures Quoted(v[p + 1..] + u, q).text != v
  {
    var r := Quoted(v[p + 1..] + u, q);
    if r.len >= |v| - p {
      QuotedRunsOver(v, p, q, u, |v|);
    } else {
      QuotedLosesQuotes(v[p + 1..] + u, q);
    }
  }

  lemma RawBareIsNotItself(v: string, p: nat, u: string)
    requires NeedsQuotes(v) && p <= |v| && u != "" && IsReserved(u[0])
    requires forall j | 0 <= j < p :: v[j] != u[0]
    requires Bare(v[p..] + u).Span?
    ensures Bare(v[p..] + u).text != v
  {
    hide IsReserved;
    var s := v[p..] + u;
    var r := Bare(s);
    if r.len > |v| - p {
      BareRunsOver(v, p, u, |v|);
    } else {
      BareLosesEscapes(s);
      assert forall j | p <= j < |v| :: s[j - p] == v[j];
      assert IsSpace(' ') && IsSpace('\t') && IsSpace('\n');
    }
  }

  lemma ScanPastGap(s: string)
    requires Gap(s) < |s|
    ensures var g := Gap(s);
      Scan(s) == match Lexeme(s[g..])
        case LexError => ScanError
        case Lexed(sym, n) => Scanned(sym, g, n)
  {
    hide Lexeme, Gap;
  }

  lemma StreamStops(s: string)
    requires Scan(s).ScanError?
    ensures Stream(s) == [TokBad]
  {
  }

  lemma StreamGoesOn(s: string, sym: Symbol, skip: nat, n: nat)
    requires Scan(s) == Scanned(sym, skip, n) && !sym.TokEOF?
    ensures Stream(s) == [sym] + Stream(s[skip + n..])
  {
    hide Scan;
  }

  lemma StreamPastGap(s: string)
    requires Gap(s) < |s|
    ensures Lexeme(s[Gap(s)..]).LexError? ==> Stream(s) == [TokBad]
    ensures Lexeme(s[Gap(s)..]).Lexed? ==>
      Stream(s) == [Lexeme(s[Gap(s)..]).sym] + Stream(s[Gap(s) + Lexeme(s[Gap(s)..]).len..])
  {
    hide *;
    ScanPastGap(s);
    var found := Lexeme(s[Gap(s)..]);
    if found.Lexed? {
      StreamGoesOn(s, found.sym, Gap(s), found.len);
    } else {
      StreamStops(s);
    }
  }

  /** Past its spaces, `v` starts with a character that starts no group. */
  lemma RawStartMisreads(v: string, k: nat, u: string)
    requires NeedsQuotes(v) && k < |v| && u != "" && Ends(u)
    requires (forall j | 0 <= j < k :: v[j] != u[0]) && v[k] != '('
    ensures Lexeme(v[k..] + u).Lexed? ==> Lexeme(v[k..] + u).sym != TokValue(v)
  {
    hide Quoted, Bare, OpLexeme, NeedsQuotes;
    var s := v[k..] + u;
    assert s[0] == v[k] && s[1..] == v[k + 1..] + u;
    if v[k] == '"' || v[k] == '\'' {
      if Quoted(s[1..], v[k]).Span? { QuotedIsNotItself(v, k, v[k], u); }
    } else if Bare(s).Span? {
      RawBareIsNotItself(v, k, u);
    }
  }

  /** A text that would have to be quoted is not read back when it is printed raw, as
      selectors are: the first symbol after it that is no '(' is another value or none. */
  lemma {:induction false} RawMisreads(v: string, p: nat, u: string)
    requires NeedsQuotes(v) && p <= |v| && u != "" && Ends(u)
    requires forall j | 0 <= j < p :: v[j] != u[0]
    ensures FirstPastParens(Stream(v[p..] + u)) != TokValue(v)
    decreases |v| - p
  {
    hide Lexeme, Stream, NeedsQuotes;
    var s := v[p..] + u;
    var g := Gap(s);
    if g >= |v| - p {
      assert forall j | 0 <= j < |v| - p :: v[p..][j] == s[j] == s[..g][j];
      BlankReads(v[p..], u);
      EndOpensNothing(u);
    } else {
      var k := p + g;
      assert s[g] == v[k] && s[g..] == v[k..] + u;
      forall j | 0 <= j < k ensures v[j] != u[0] {
        if p <= j { assert v[j] == s[..g][j - p]; }
      }
      StreamPastGap(s);
      if v[k] == '(' {
        OpensParen(s[g..]);
        assert s[g + 1..] == v[k + 1..] + u;
        RawMisreads(v, k + 1, u);
      } else {
        RawStartMisreads(v, k, u);
        OpensNoParen(s[g..]);
      }
    }
  }

  lemma OpensParen(s: string)
    requires s != "" && s[0] == '('
    ensures Lexeme(s) == Lexed(TokLParen, 1)
  {
  }

  lemma OpensNoParen(s: string)
    requires s != "" && s[0] != '('
    ensures Lexeme(s).Lexed? ==> Lexeme(s).sym != TokLParen
  {
    hide OpLexeme, QuotedLexeme, BareLexeme;
  }

  lemma BlankScans(v: string, u: string)
    requires IsSpaces(v)
    ensures Scan(v + u) == match Scan(u)
      case ScanError => ScanError
      case Scanned(sym, skip, n) => Scanned(sym, |v| + skip, n)
  {
    hide Lexeme;
    GapSkipsSpaces(v, u);
    assert (v + u)[|v| + Gap(u)..] == u[Gap(u)..];
  }

  lemma BlankReads(v: string, u: string)
    requires IsSpaces(v)
    ensures Stream(v + u) == Stream(u)
  {
    hide Scan;
    BlankScans(v, u);
    var b := Scan(u);
    if b.Scanned? {
      assert (v + u)[|v| + b.skip + b.len..] == u[b.skip + b.len..];
    }
  }

  lemma PlainStart(s: string)
    requires s != "" && !IsReserved(s[0])
    ensures Lexeme(s) == BareLexeme(s)
  {
  }

  /** Exactly the safe texts survive being printed as a literal and read back. */
  lemma LiteralReadsBackIffSafe(v: string)
    ensures Safe(v) <==> Scan(LiteralText(v)) == Scanned(TokValue(v), 0, |LiteralText(v)|)
    ensures Safe(v) <==> Stream(LiteralText(v)) == [TokValue(v), TokEOF]
  {
    hide Lexeme, Safe;
    SafeIsQuotedOrBare(v);
    var t := LiteralText(v);
    if Safe(v) {
      SafeLiteralSpells(v);
      SymbolReads(TokValue(v), LiteralStyle(v), "");
      assert t + "" == t && t[0..] == t;
      assert Gap(t) == 0;
      SpacesReadAsEnd("");
      assert t[|t|..] == "";
    } else {
      UnsafeMisreads(v, "");
      assert v + "" == v;
    }
  }
}
