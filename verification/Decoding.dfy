/** What a canonical string parses to when it parses at all (rsql/canonical.go:28-29, 54-65):
    the tree of the sorted filter with every unquoted text decoded as a bare value, and list
    items run together where a backslash swallows the ',' between them. */
module Decoding {
  import opened Results
  import opened Runes
  import opened Ordering
  import opened Syntax
  import opened Lexing
  import opened Grammar
  import opened Parsing
  import opened Spelling
  import opened Schemas
  import opened Canonicals
  import opened Literals
  import opened Echoes
  import opened Rebinding
  import opened Injectivity
  import opened Validity

  // ----- the tree that is read -----

  /** The value read from a text that ends one. */
  function Decoded(v: string, running: bool): string {
    if NeedsQuotes(v) then v else BareText(if running then v else v[Gap(v)..])
  }

  function BareText(v: string): string {
    match Bare(v)
    case NoSpan => ""
    case Span(x, _) => x
  }

  /** The part of a value read from a text that ends in a backslash. */
  function DecodedPart(v: string, running: bool): string {
    var t := if running then v else v[Gap(v)..];
    if t == "" then "" else BareText(t[..|t| - 1])
  }

  /** The values read from the literals of a list, the first one after `part` of it. */
  function ListTexts(vs: seq<string>, running: bool, part: string): (r: seq<string>)
    requires ListReads(vs, running)
    ensures r != []
  {
    if Reads(vs[0], running).Dangling? then
      ListTexts(vs[1..], true, part + DecodedPart(vs[0], running) + ",")
    else
      [part + Decoded(vs[0], running)] + if |vs| == 1 then [] else ListTexts(vs[1..], false, "")
  }

  /** A selector is never quoted. */
  function SelectorText(v: string): string {
    BareText(v[Gap(v)..])
  }

  function ArgumentTexts(values: seq<Value>): (r: seq<string>)
    requires ListReads(Keys(Text, values), false)
    ensures r != []
  {
    ListTexts(Keys(Text, values), false, "")
  }

  /** The syntax tree that the print of a readable tree parses to. */
  function ReadNode(b: Bound): Node
    requires Grouped(b) && Readable(b)
  {
    match b
    case BoundAnd(ns) => And(ReadNodes(ns))
    case BoundOr(ns) => Or(ReadNodes(ns))
    case BoundComparison(selector, _, op, values) => Comparison(SelectorText(selector), op, ArgumentTexts(values))
  }

  function ReadNodes(ns: seq<Bound>): (r: seq<Node>)
    requires forall m | m in ns :: Grouped(m) && Readable(m)
    ensures |r| == |ns|
    ensures forall i | 0 <= i < |ns| :: r[i] == ReadNode(ns[i])
  {
    seq(|ns|, i requires 0 <= i < |ns| => ReadNode(ns[i]))
  }

  function ReadAtom(b: Bound): (a: Atom)
    requires Grouped(b) && Readable(b)
    ensures AtomOk(a)
  {
    match b
    case BoundAnd(ns) =>
      var c := Conj(ReadAtoms(ns));
      assert ConjOk(c);
      Group(Disj([c]))
    case BoundOr(ns) => Group(Disj(SoleTerms(ReadAtoms(ns))))
    case BoundComparison(selector, _, op, values) =>
      CanonicalTextLooksUp(op);
      var texts := ArgumentTexts(values);
      Test(SelectorText(selector), op.Text(), if |values| == 1 then Single(texts[0]) else Listed(texts))
  }

  function ReadAtoms(ns: seq<Bound>): (r: seq<Atom>)
    requires forall m | m in ns :: Grouped(m) && Readable(m)
    ensures |r| == |ns|
    ensures forall i | 0 <= i < |ns| :: r[i] == ReadAtom(ns[i])
    ensures forall a | a in r :: AtomOk(a)
  {
    if ns == [] then [] else [ReadAtom(ns[0])] + ReadAtoms(ns[1..])
  }

  lemma OneTextPerValue(v: string)
    requires ListReads([v], false)
    ensures ListTexts([v], false, "") == [Decoded(v, false)]
  {
    assert "" + Decoded(v, false) == Decoded(v, false);
  }

  lemma {:induction false} ReadAtomMeans(b: Bound)
    requires Grouped(b) && Readable(b)
    ensures TreeAtom(ReadAtom(b)) == ReadNode(b)
  {
    hide ListTexts, Reads, SelectorReads, SelectorText;
    match b
    case BoundAnd(ns) =>
      var atoms := ReadAtoms(ns);
      forall i | 0 <= i < |ns| ensures TreeFactors(atoms)[i] == ReadNodes(ns)[i] {
        ReadAtomMeans(ns[i]);
      }
      assert TreeFactors(atoms) == ReadNodes(ns);
      var c := Conj(atoms);
      assert ConjOk(c) && TreeConj(c) == And(TreeFactors(atoms));
      assert DisjOk(Disj([c])) && TreeDisj(Disj([c])) == TreeConj(c);
    case BoundOr(ns) =>
      var terms := SoleTerms(ReadAtoms(ns));
      forall i | 0 <= i < |ns| ensures TreeTerms(terms)[i] == ReadNodes(ns)[i] {
        ReadAtomMeans(ns[i]);
      }
      assert TreeTerms(terms) == ReadNodes(ns);
    case BoundComparison(selector, _, op, values) =>
      CanonicalTextLooksUp(op);
      if |values| == 1 {
        assert Keys(Text, values) == [Text(values[0])];
        OneTextPerValue(Text(values[0]));
      }
  }

  // ----- the symbols of a value that runs on -----

  /** The symbols when a bare value, `part` of which has been read, runs on into `s`. */
  function RunStream(part: string, s: string): seq<Symbol> {
    match Bare(s)
    case NoSpan => [TokBad]
    case Span(x, n) => [TokValue(part + x)] + Stream(s[n..])
  }

  lemma BareStartStream(s: string)
    requires s != "" && !IsSpace(s[0]) && !IsReserved(s[0])
    ensures Stream(s) == RunStream("", s)
  {
    hide Stream, Lexeme, Bare;
    NoGap(s);
    PlainLexeme(s);
    StreamPastGap(s);
    if Bare(s).Span? { assert "" + Bare(s).text == Bare(s).text; }
  }

  lemma BareSteps(s: string, step: nat)
    requires s != "" && (s[0] == '\\' || (!IsSpace(s[0]) && !IsReserved(s[0])))
    requires step == (if s[0] == '\\' then 2 else 1) <= |s|
    ensures Bare(s) == Bare(s[step..]).After([s[step - 1]], step)
  {
  }

  /** A text that reads up to a backslash at its end starts with something that can be read. */
  lemma DanglingStarts(t: string)
    requires !HasReserved(t) && Bare(t).NoSpan?
    ensures t != "" && !IsReserved(t[0]) && (IsSpace(t[0]) ==> t[0] == '\\')
  {
    hide HasReserved, IsReserved, IsSpace;
    if t != "" { FirstIsFree(t); }
  }

  /** A backslash at the end of `t` takes the next character along. */
  lemma {:induction false} DanglingConcat(t: string, u: string)
    requires !HasReserved(t) && Bare(t).NoSpan? && u != ""
    ensures t != "" && Bare(t[..|t| - 1]).Span?
    ensures Bare(t + u) == Bare(u[1..]).After(Bare(t[..|t| - 1]).text + [u[0]], |t| + 1)
  {
    hide IsSpace, IsReserved, HasReserved, Bare;
    DanglingStarts(t);
    if |t| == 1 {
      LoneBackslash(t, u);
    } else {
      var step := if t[0] == '\\' then 2 else 1;
      var rest, inner := t[step..], t[..|t| - 1];
      BareSteps(t, step);
      TailIsFree(t, step);
      DanglingConcat(rest, u);
      DanglingInner(t, step);
      assert (t + u)[step..] == rest + u && (t + u)[step - 1] == t[step - 1];
      BareSteps(t + u, step);
      var x := Bare(rest[..|rest| - 1]).text;
      AfterTwice(Bare(u[1..]), x + [u[0]], |rest| + 1, [t[step - 1]], step);
      assert [t[step - 1]] + (x + [u[0]]) == [t[step - 1]] + x + [u[0]];
    }
  }

  lemma LoneBackslash(t: string, u: string)
    requires |t| == 1 && Bare(t).NoSpan? && u != ""
    ensures t[..0] == "" && Bare("") == Span("", 0)
    ensures Bare(t + u) == Bare(u[1..]).After("" + [u[0]], 2)
  {
    assert t[1..] == "" && (t + u)[2..] == u[1..] && "" + [u[0]] == [u[0]];
  }

  lemma DanglingInner(t: string, step: nat)
    requires |t| > 1 && (t[0] == '\\' || (!IsSpace(t[0]) && !IsReserved(t[0])))
    requires step == (if t[0] == '\\' then 2 else 1) < |t|
    requires Bare(t[step..][..|t| - step - 1]).Span?
    ensures Bare(t[..|t| - 1]) == Bare(t[step..][..|t| - step - 1]).After([t[step - 1]], step)
  {
    hide Bare, IsSpace, IsReserved;
    var inner := t[..|t| - 1];
    assert inner[step..] == t[step..][..|t| - step - 1];
    BareSteps(inner, step);
  }

  lemma WholeStream(part: string, v: string, u: string)
    requires !HasReserved(v) && (u == "" || IsReserved(u[0])) && Ending(v).Whole?
    ensures RunStream(part, v + u) == [TokValue(part + BareText(v))] + Stream(u)
  {
    hide Bare, Stream, IsReserved, HasReserved, IsSpaces, RunStream;
    BareConcat(v, u);
    ClosedStops(u);
    var x, n := Bare(v).text, Bare(v).len;
    assert x + "" == x;
    RunsTo(part, v + u, x, n);
    assert (v + u)[n..] == v[n..] + u;
    BlankReads(v[n..], u);
  }

  lemma RunsTo(part: string, s: string, x: string, n: nat)
    requires Bare(s) == Span(x, n)
    ensures RunStream(part, s) == [TokValue(part + x)] + Stream(s[n..])
  {
  }

  lemma DanglingStream(part: string, v: string, u: string)
    requires !HasReserved(v) && Ending(v).Dangling? && u != ""
    ensures v != "" && RunStream(part, v + u) == RunStream(part + BareText(v[..|v| - 1]) + [u[0]], u[1..])
  {
    hide Bare, Stream, HasReserved;
    DanglingConcat(v, u);
    var x, more := Bare(v[..|v| - 1]).text, Bare(u[1..]);
    if more.Span? {
      assert (v + u)[|v| + 1 + more.len..] == u[1..][more.len..];
      assert part + (x + [u[0]] + more.text) == part + x + [u[0]] + more.text;
    }
  }

  lemma EndingStream(part: string, v: string, u: string)
    requires !HasReserved(v) && (u == "" || IsReserved(u[0]))
    ensures Ending(v).Whole? ==> RunStream(part, v + u) == [TokValue(part + BareText(v))] + Stream(u)
    ensures Ending(v).Dangling? && u != "" ==>
      v != "" && RunStream(part, v + u) == RunStream(part + BareText(v[..|v| - 1]) + [u[0]], u[1..])
  {
    hide RunStream, BareText, Stream, IsReserved, HasReserved, Ending;
    if Ending(v).Whole? {
      WholeStream(part, v, u);
    } else if Ending(v).Dangling? && u != "" {
      DanglingStream(part, v, u);
    }
  }

  /** Where a value is to start. */
  lemma FreshStream(v: string, u: string)
    requires !HasReserved(v) && !IsSpaces(v)
    ensures Stream(v + u) == RunStream("", v[Gap(v)..] + u)
  {
    hide Stream, Bare, IsReserved, RunStream;
    var g := Gap(v);
    GapInside(v, "");
    assert v + "" == v && v + u == v[..g] + (v[g..] + u);
    BlankReads(v[..g], v[g..] + u);
    assert (v[g..] + u)[0] == v[g] && !IsReserved(v[g]);
    BareStartStream(v[g..] + u);
  }

  function GoStream(part: string, s: string, running: bool): seq<Symbol> {
    if running then RunStream(part, s) else Stream(s)
  }

  /** One literal of an argument list, and what follows it. */
  lemma ItemStream(v: string, u: string, running: bool, part: string)
    requires Closed(u) && (!running ==> part == "")
    ensures Reads(v, running).Whole? ==>
      GoStream(part, LiteralText(v) + u, running) == [TokValue(part + Decoded(v, running))] + Stream(u)
    ensures Reads(v, running).Dangling? && u != "" ==>
      GoStream(part, LiteralText(v) + u, running) == RunStream(part + DecodedPart(v, running) + [u[0]], u[1..])
  {
    hide Stream, Bare, Ending, Escape, RunStream, HasReserved, BareText;
    if NeedsQuotes(v) {
      QuotedStream(v, u);
      assert "" + v == v;
    } else {
      var t := if running then v else v[Gap(v)..];
      if running || !IsSpaces(v) {
        if !running { FreshStream(v, u); }
        UnquotedTail(v, running);
        EndingStream(part, t, u);
      }
    }
  }

  lemma UnquotedTail(v: string, running: bool)
    requires !NeedsQuotes(v)
    ensures !HasReserved(if running then v else v[Gap(v)..])
  {
    hide HasReserved;
    UnquotedIsFree(v);
    TailIsFree(v, Gap(v));
  }

  // ----- lists -----

  function Items(vs: seq<string>): seq<Symbol>
    requires vs != []
  {
    [TokValue(vs[0])] + YieldValues(vs, 1)
  }

  lemma {:induction false} YieldValuesShift(v: string, vs: seq<string>, k: nat)
    requires k <= |vs|
    ensures YieldValues([v] + vs, k + 1) == YieldValues(vs, k)
    decreases |vs| - k
  {
    var all := [v] + vs;
    if k < |vs| {
      YieldValuesShift(v, vs, k + 1);
      assert all[k + 1] == vs[k];
    }
  }

  lemma ItemsCons(v: string, vs: seq<string>)
    requires vs != []
    ensures Items([v] + vs) == [TokValue(v), TokOr] + Items(vs)
  {
    YieldValuesShift(v, vs, 0);
    assert YieldValues(vs, 0) == [TokOr, TokValue(vs[0])] + YieldValues(vs, 1);
  }

  lemma ItemsOne(v: string)
    ensures Items([v]) == [TokValue(v)]
  {
  }

  lemma MarkStream(sym: Symbol, rest: string)
    requires sym == TokLParen || sym == TokRParen || sym == TokAnd || sym == TokOr
    ensures Stream(Spell(sym, Unquoted([])) + rest) == [sym] + Stream(rest)
  {
    hide Stream, Spell;
    PieceReads(Piece("", sym, Unquoted([])), rest);
    assert "" + Spell(sym, Unquoted([])) + rest == Spell(sym, Unquoted([])) + rest;
  }

  /** The rest of a printed row after an item. */
  lemma MoreStream(parts: seq<string>, sep: char, u: string)
    requires parts != [] && Separator(sep)
    ensures var m := More(parts, sep) + u;
      && Closed(m) && m != "" && m[0] == (if |parts| == 1 then ')' else sep)
      && m[1..] == (if |parts| == 1 then u else Join(parts[1..], [sep]) + ")" + u)
      && Stream(m) == [if |parts| == 1 then TokRParen else if sep == ',' then TokOr else TokAnd] + Stream(m[1..])
  {
    hide Stream, More, Join;
    MoreFirst(parts, sep, u);
    var m := More(parts, sep) + u;
    assert m == [m[0]] + m[1..];
    MarkStream(if |parts| == 1 then TokRParen else if sep == ',' then TokOr else TokAnd, m[1..]);
  }

  lemma {:induction false} ListStream(vs: seq<string>, running: bool, part: string, u: string)
    requires ListReads(vs, running) && Closed(u) && (!running ==> part == "")
    ensures var s := Join(LiteralTexts(vs), ",") + ")" + u;
      GoStream(part, s, running) == Items(ListTexts(vs, running, part)) + ([TokRParen] + Stream(u))
    decreases |vs|
  {
    hide Stream, RunStream, Join, More, LiteralText, Reads, Closed, Items, Decoded, DecodedPart;
    var parts := LiteralTexts(vs);
    var m := More(parts, ',') + u;
    JoinIsMore(parts, ',', u);
    MoreStream(parts, ',', u);
    ItemStream(vs[0], m, running, part);
    if |vs| > 1 {
      assert parts[1..] == LiteralTexts(vs[1..]);
    }
    if Reads(vs[0], running).Dangling? {
      ListStream(vs[1..], true, part + DecodedPart(vs[0], running) + ",", u);
    } else {
      var w := part + Decoded(vs[0], running);
      if |vs| == 1 {
        ItemsOne(w);
        assert [w] + [] == [w];
      } else {
        ListStream(vs[1..], false, "", u);
        ItemsCons(w, ListTexts(vs[1..], false, ""));
      }
    }
  }

  // ----- comparisons -----

  lemma SelectorStream(x: string, op: Operator, rest: string)
    requires !HasReserved(x) && SelectorReads(x).Whole?
    ensures Stream(x + (op.Text() + rest)) == [TokValue(SelectorText(x)), TokOp(op.Text())] + Stream(rest)
  {
    hide Stream, Bare, HasReserved, Ending, BareText, RunStream;
    var w, t := op.Text() + rest, x[Gap(x)..];
    OpStarts(op, rest);
    FreshStream(x, w);
    TailIsFree(x, Gap(x));
    EndingStream("", t, w);
    OpStream(op, rest);
    assert "" + BareText(t) == BareText(t);
    assert [TokValue(BareText(t))] + ([TokOp(op.Text())] + Stream(rest))
        == [TokValue(BareText(t)), TokOp(op.Text())] + Stream(rest);
  }

  lemma ArgsStream(values: seq<Value>, u: string)
    requires values != [] && Closed(u) && ListReads(Keys(Text, values), false)
    ensures var texts := ArgumentTexts(values);
      Stream(PrintArgs(values) + u)
      == YieldArguments(if |values| == 1 then Single(texts[0]) else Listed(texts)) + Stream(u)
  {
    hide Stream, Join, LiteralText, Reads, Closed, ListTexts, Decoded;
    var vs := Keys(Text, values);
    if |values| == 1 {
      assert vs == [Text(values[0])];
      OneTextPerValue(vs[0]);
      ItemStream(vs[0], u, false, "");
      assert "" + Decoded(vs[0], false) == Decoded(vs[0], false);
    } else {
      var row, texts := Join(LiteralTexts(vs), ",") + ")" + u, ArgumentTexts(values);
      ListArgs(values, u);
      assert PrintArgs(values) + u == "(" + row;
      MarkStream(TokLParen, row);
      ListStream(vs, false, "", u);
      assert [TokLParen] + (Items(texts) + ([TokRParen] + Stream(u)))
          == [TokLParen, TokValue(texts[0])] + YieldValues(texts, 1) + [TokRParen] + Stream(u);
    }
  }

  lemma LeafStream(b: Bound, u: string)
    requires Grouped(b) && Readable(b) && ClearSelectors(b) && b.BoundComparison? && Closed(u)
    ensures Stream(Print(b) + u) == YieldAtom(ReadAtom(b)) + Stream(u)
  {
    hide Stream, PrintArgs, Print, SelectorReads, HasReserved, Closed, ListReads, YieldArguments, SelectorText;
    hide ArgumentTexts;
    var rest, a := PrintArgs(b.values) + u, ReadAtom(b);
    LeafPrint(b, u);
    SelectorStream(b.selector, b.op, rest);
    ArgsStream(b.values, u);
    var head := [TokValue(a.selector), TokOp(a.opText)];
    assert head + (YieldArguments(a.args) + Stream(u)) == head + YieldArguments(a.args) + Stream(u);
  }

  // ----- trees -----

  /** The symbols of the operands of a group from the `k`-th on, each after its separator. */
  function YieldRest(atoms: seq<Atom>, k: nat, sep: char): seq<Symbol>
    requires k <= |atoms| && forall a | a in atoms :: AtomOk(a)
  {
    if sep == ';' then YieldFactors(atoms, k) else YieldTerms(SoleTerms(atoms), k)
  }

  lemma YieldRestUnfolds(atoms: seq<Atom>, k: nat, sep: char)
    requires k < |atoms| && forall a | a in atoms :: AtomOk(a)
    ensures YieldRest(atoms, k, sep)
      == [if sep == ';' then TokAnd else TokOr] + (YieldAtom(atoms[k]) + YieldRest(atoms, k + 1, sep))
  {
    hide YieldAtom, AtomOk;
    assert YieldConj(SoleTerm(atoms[k])) == YieldAtom(atoms[k]) + [];
  }

  lemma YieldRestEnds(atoms: seq<Atom>, sep: char)
    requires forall a | a in atoms :: AtomOk(a)
    ensures YieldRest(atoms, |atoms|, sep) == []
  {
    hide YieldAtom, AtomOk;
  }

  lemma GroupYield(b: Bound, sep: char)
    requires Grouped(b) && Readable(b)
    requires (b.BoundAnd? && sep == ';') || (b.BoundOr? && sep == ',')
    ensures var atoms := ReadAtoms(b.nodes);
      YieldAtom(ReadAtom(b)) == [TokLParen] + (YieldAtom(atoms[0]) + YieldRest(atoms, 1, sep)) + [TokRParen]
  {
    hide YieldAtom, AtomOk, ListReads, SelectorReads;
    var atoms := ReadAtoms(b.nodes);
    if b.BoundAnd? { AndYield(atoms); } else { OrYield(atoms); }
  }

  /** The print of a readable tree reads as the symbols of the tree it decodes to. */
  lemma {:induction false} TreeStream(b: Bound, u: string)
    requires Grouped(b) && Readable(b) && ClearSelectors(b) && Closed(u)
    ensures Stream(Print(b) + u) == YieldAtom(ReadAtom(b)) + Stream(u)
    decreases b, 1
  {
    hide Stream, Print, Closed, YieldAtom, ReadAtom, Join, SelectorReads, ListReads, HasReserved;
    if b.BoundComparison? {
      LeafStream(b, u);
    } else {
      var sep := if b.BoundAnd? then ';' else ',';
      var atoms, row := ReadAtoms(b.nodes), Join(PrintAll(b.nodes), [sep]) + ")" + u;
      GroupOpens(b, u);
      GroupPrint(b, sep, u);
      assert Print(b) + u == "(" + row;
      MarkStream(TokLParen, row);
      RowStream(b.nodes, 0, sep, u);
      assert PrintAll(b.nodes)[0..] == PrintAll(b.nodes);
      GroupYield(b, sep);
      RegroupRow([], [TokLParen], YieldAtom(atoms[0]) + YieldRest(atoms, 1, sep), [TokRParen] + Stream(u));
      RegroupEnd([TokLParen] + (YieldAtom(atoms[0]) + YieldRest(atoms, 1, sep)), [TokRParen], Stream(u));
    }
  }

  lemma RegroupRow(a: seq<Symbol>, sep: seq<Symbol>, next: seq<Symbol>, tail: seq<Symbol>)
    ensures a + (sep + (next + tail)) == a + (sep + next) + tail
    ensures [] + (sep + next) == sep + next && [] + (sep + (next + tail)) == sep + (next + tail)
  {
    assert sep + (next + tail) == (sep + next) + tail;
  }

  lemma RegroupEnd(a: seq<Symbol>, b: seq<Symbol>, c: seq<Symbol>)
    ensures a + (b + c) == a + b + c
  {
  }

  lemma {:induction false} RowStream(ns: seq<Bound>, k: nat, sep: char, u: string)
    requires k < |ns| && (forall m | m in ns :: Grouped(m) && Readable(m) && ClearSelectors(m))
    requires Separator(sep) && Closed(u)
    ensures var atoms := ReadAtoms(ns);
      Stream(Join(PrintAll(ns)[k..], [sep]) + ")" + u)
      == YieldAtom(atoms[k]) + YieldRest(atoms, k + 1, sep) + ([TokRParen] + Stream(u))
    decreases ns, 0, |ns| - k
  {
    hide Stream, Print, Closed, YieldAtom, ReadAtom, YieldRest, Join, More, Readable, Grouped, ClearSelectors;
    var atoms, parts := ReadAtoms(ns), PrintAll(ns)[k..];
    var rest := More(parts, sep) + u;
    JoinIsMore(parts, sep, u);
    MoreStream(parts, sep, u);
    TreeStream(ns[k], rest);
    if k + 1 == |ns| {
      YieldRestEnds(atoms, sep);
      assert YieldAtom(atoms[k]) + [] == YieldAtom(atoms[k]);
    } else {
      assert parts[1..] == PrintAll(ns)[k + 1..];
      RowStream(ns, k + 1, sep, u);
      YieldRestUnfolds(atoms, k + 1, sep);
      RegroupRow(YieldAtom(atoms[k]), [if sep == ';' then TokAnd else TokOr],
                 YieldAtom(atoms[k + 1]) + YieldRest(atoms, k + 2, sep), [TokRParen] + Stream(u));
    }
  }

  // ----- the main results -----

  /** The print of a readable tree parses to the tree it decodes to. */
  lemma {:induction false} ReadablePrintParses(b: Bound)
    requires Grouped(b) && Readable(b) && ClearSelectors(b)
    ensures ParseText(Print(b)) == Ok(ReadNode(b))
  {
    hide Stream, Print, YieldAtom, ReadAtom, ReadNode, Readable, ClearSelectors, ParseDisj, TreeAtom, Grouped;
    var a := ReadAtom(b);
    TreeStream(b, "");
    SpacesReadAsEnd("");
    assert Print(b) + "" == Print(b);
    AloneYieldsAtom(a);
    DisjComplete(Alone(a), [TokEOF]);
    ReadAtomMeans(b);
  }

  /** What the canonical form of an accepted filter parses to: the decoded sorted filter if that
      is readable, and nothing otherwise. */
  lemma {:induction false} CanonicalParsesTo(expr: string, s: Schema, lim: Limits, b: Bound)
    requires BindText(expr, s, lim) == Ok(b) && ClearSelectors(b)
    ensures Grouped(Normal(b))
    ensures ParseText(Canon(b)) == if Readable(Normal(b)) then Ok(ReadNode(Normal(b))) else Err
  {
    hide BindText, ParseText, Canon, Normal, Readable, Conforms, ClearSelectors, ReadNode, Grouped;
    AcceptedConforms(expr, s, lim);
    NormalConforms(b, s);
    ConformsIsGrouped(Normal(b), s);
    NormalKeepsClear(b);
    CanonPrintsNormal(b);
    CanonicalParsesIff(expr, s, lim, b);
    if Readable(Normal(b)) {
      ReadablePrintParses(Normal(b));
    }
  }

  lemma {:induction false} ReadNodeKeepsSize(b: Bound)
    requires Grouped(b) && Readable(b)
    ensures SizeOf(ReadNode(b)) == BoundSize(b)
  {
    hide ListReads, SelectorReads;
    match b
    case BoundAnd(ns) => ReadNodesKeepSizes(ns);
    case BoundOr(ns) => ReadNodesKeepSizes(ns);
    case BoundComparison(_, _, _, _) =>
  }

  lemma {:induction false} ReadNodesKeepSizes(ns: seq<Bound>)
    requires forall m | m in ns :: Grouped(m) && Readable(m)
    ensures SizeOfAll(ReadNodes(ns)) == BoundSizes(ns)
  {
    hide Grouped, Readable, ReadNode, SizeOf, BoundSize;
    if ns != [] {
      ReadNodeKeepsSize(ns[0]);
      ReadNodesKeepSizes(ns[1..]);
      assert ReadNodes(ns)[1..] == ReadNodes(ns[1..]);
    }
  }

  /** And what binding it again returns, under the same schema and limits: the decoded filter if
      its texts fit the schema. The limits never stand in the way. */
  lemma {:induction false} CanonicalBindsTo(expr: string, s: Schema, lim: Limits, b: Bound)
    requires BindText(expr, s, lim) == Ok(b) && ClearSelectors(b)
    ensures Grouped(Normal(b))
    ensures BindText(Canon(b), s, lim) ==
      if Readable(Normal(b)) && Admissible(ReadNode(Normal(b)), s) then Ok(BindNode(ReadNode(Normal(b)), s)) else Err
  {
    hide ParseText, Canon, Normal, Readable, Conforms, ClearSelectors, ReadNode, Grouped, Admissible, BindNode;
    hide BoundSize, SizeOf;
    CanonicalParsesTo(expr, s, lim, b);
    BindKeepsSize(ParseText(expr).value, s);
    NormalKeepsSize(b);
    if Readable(Normal(b)) {
      ReadNodeKeepsSize(Normal(b));
    }
  }

  /** So a canonical form that is valid but does not read back is that of another filter, which
      the schema may accept or reject. */
  lemma {:induction false} ValidButAnother(expr: string, s: Schema, lim: Limits, b: Bound)
    requires BindText(expr, s, lim) == Ok(b) && ClearSelectors(b)
    requires Readable(Normal(b)) && !ReadsBack(b)
    ensures Grouped(Normal(b)) && ParseText(Canon(b)) == Ok(ReadNode(Normal(b)))
    ensures Admissible(ReadNode(Normal(b)), s) ==> BindNode(ReadNode(Normal(b)), s) != Normal(b)
  {
    hide BindText, ParseText, Canon, Normal, Readable, ClearSelectors, ReadsBack, ReadNode, Grouped, Admissible;
    hide BindNode;
    CanonicalParsesTo(expr, s, lim, b);
    CanonicalBindsTo(expr, s, lim, b);
    CanonicalRoundTripsIff(expr, s, lim, b);
  }
}
