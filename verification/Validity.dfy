/** Whether a canonical string is RSQL at all (rsql/canonical.go:28-29, 54-55): the exact
    condition under which it parses, for filters whose selectors hold no reserved character.
    Weaker than coming back as the same filter: a text with a backslash
    inside parses, but as another text. */
module Validity {
  import opened Results
  import opened Runes
  import opened Ordering
  import opened Syntax
  import opened Lexing
  import opened Parsing
  import opened Spelling
  import opened Schemas
  import opened Canonicals
  import opened Literals
  import opened Echoes
  import opened RoundTrips
  import opened Rebinding
  import opened Injectivity
  import opened Counters

  // ----- the condition -----

  /** How a printed text reads: as one value; as a value that also swallows the character after
      it, because of a backslash at the end; or as none or several. */
  datatype Reading = Whole | Dangling | Broken

  /** A bare value that goes on with the text `v`. */
  function Ending(v: string): Reading {
    match Bare(v)
    case NoSpan => Dangling
    case Span(_, n) => if IsSpaces(v[n..]) then Whole else Broken
  }

  /** The literal of `v`, where a value is to start, or where one is running that swallowed the
      ',' in front. */
  function Reads(v: string, running: bool): Reading {
    if NeedsQuotes(v) then if running then Broken else Whole
    else if running then Ending(v)
    else if IsSpaces(v) then Broken
    else Ending(v[Gap(v)..])
  }

  /** A selector, which is never quoted. */
  function SelectorReads(v: string): Reading {
    if IsSpaces(v) then Broken else Ending(v[Gap(v)..])
  }

  /** The literals of a list: each reads as a value, alone or run together with the next. */
  predicate ListReads(vs: seq<string>, running: bool) {
    && vs != []
    && match Reads(vs[0], running)
       case Whole => |vs| == 1 || ListReads(vs[1..], false)
       case Dangling => |vs| > 1 && ListReads(vs[1..], true)
       case Broken => false
  }

  /** Every selector reads as one value, and every argument list as one or more. */
  predicate Readable(b: Bound) {
    match b
    case Nil => false
    case BoundAnd(ns) => forall m | m in ns :: Readable(m)
    case BoundOr(ns) => forall m | m in ns :: Readable(m)
    case BoundComparison(selector, _, _, values) =>
      SelectorReads(selector).Whole? && ListReads(Keys(Text, values), false)
  }

  /** No selector contains a reserved character. */
  predicate ClearSelectors(b: Bound) {
    match b
    case Nil => true
    case BoundAnd(ns) => forall m | m in ns :: ClearSelectors(m)
    case BoundOr(ns) => forall m | m in ns :: ClearSelectors(m)
    case BoundComparison(selector, _, _, _) => !HasReserved(selector)
  }

  // ----- the machine on texts -----

  ghost predicate Acc(q: State, s: string) {
    Accepts(q, Stream(s))
  }

  lemma AccStep(q: State, s: string, sym: Symbol, rest: string)
    requires Stream(s) == [sym] + Stream(rest) && sym != TokEOF
    ensures Acc(q, s) <==> Acc(Step(q, sym), rest)
  {
    hide Stream, Step;
    assert Stream(s)[1..] == Stream(rest);
  }

  /** Brackets and separators. */
  lemma MarkReads(q: State, sym: Symbol, rest: string)
    requires sym == TokLParen || sym == TokRParen || sym == TokAnd || sym == TokOr
    ensures Acc(q, Spell(sym, Unquoted([])) + rest) <==> Acc(Step(q, sym), rest)
  {
    hide Stream, Acc, Spell;
    PieceReads(Piece("", sym, Unquoted([])), rest);
    assert "" + Spell(sym, Unquoted([])) + rest == Spell(sym, Unquoted([])) + rest;
    AccStep(q, Spell(sym, Unquoted([])) + rest, sym, rest);
  }

  lemma FirstIsDeadEnd(q: State, s: string)
    requires Step(q, Stream(s)[0]) == Stuck && !(q == Done(0) && Stream(s)[0] == TokEOF)
    ensures !Acc(q, s)
  {
    hide Stream;
    DeadEnd(q, Stream(s));
  }

  /** The states in which a value can be read, and the state after it. */
  predicate TakesValue(q: State) {
    q.Start? || q.Argument? || q.Item?
  }

  function AfterValue(q: State): State {
    match q
    case Start(n) => Selector(n)
    case Argument(n) => Done(n)
    case Item(n) => AfterItem(n)
    case _ => Stuck
  }

  /** A bare value runs on into `s`, and `q` is the state after it. */
  ghost predicate RunsOn(q: State, s: string) {
    Bare(s).Span? && Acc(q, s[Bare(s).len..])
  }

  lemma NoGap(s: string)
    requires s != "" && !IsSpace(s[0])
    ensures Gap(s) == 0 && s[0..] == s
  {
  }

  lemma PlainLexeme(s: string)
    requires s != "" && !IsSpace(s[0]) && !IsReserved(s[0])
    ensures Lexeme(s) == if Bare(s).Span? then Lexed(TokValue(Bare(s).text), Bare(s).len) else LexError
  {
    PlainStart(s);
  }

  lemma BareStart(q: State, s: string)
    requires TakesValue(q) && s != "" && !IsSpace(s[0]) && !IsReserved(s[0])
    ensures Acc(q, s) <==> RunsOn(AfterValue(q), s)
  {
    hide Stream, Lexeme, Bare, Accepts;
    NoGap(s);
    PlainLexeme(s);
    StreamPastGap(s);
    if Bare(s).Span? {
      AccStep(q, s, TokValue(Bare(s).text), s[Bare(s).len..]);
    } else {
      FirstIsDeadEnd(q, s);
    }
  }

  // ----- a text without reserved characters, and what follows it -----

  /** Bare reading past the end of `t`: it stops inside, or at the end, or a backslash at the end
      takes one more character along. */
  lemma {:induction false} BareConcat(t: string, u: string)
    requires !HasReserved(t)
    ensures match Bare(t)
      case Span(x, n) => Bare(t + u) == if n < |t| then Span(x, n) else Bare(u).After(x, n)
      case NoSpan =>
        if u == "" then Bare(t + u) == NoSpan
        else
          && (Bare(t + u).Span? <==> Bare(u[1..]).Span?)
          && (Bare(t + u).Span? ==> Bare(t + u).len == |t| + 1 + Bare(u[1..]).len)
  {
    hide IsSpace, IsReserved, HasReserved;
    if t == "" {
      assert t + u == u;
      if Bare(u).Span? { assert "" + Bare(u).text == Bare(u).text; }
    } else if t == ['\\'] {
      if u != "" { assert (t + u)[2..] == u[1..] && (t + u)[0] == '\\'; }
    } else {
      FirstIsFree(t);
      if !IsSpace(t[0]) || t[0] == '\\' {
        var step := if t[0] == '\\' then 2 else 1;
        assert (t + u)[step..] == t[step..] + u;
        TailIsFree(t, step);
        BareConcat(t[step..], u);
        if Bare(t[step..]).Span? {
          AfterTwice(Bare(u), Bare(t[step..]).text, Bare(t[step..]).len, [t[step - 1]], step);
        }
      }
    }
  }

  lemma FirstIsFree(t: string)
    requires t != "" && !HasReserved(t)
    ensures !IsReserved(t[0])
  {
  }

  lemma ClosedStops(u: string)
    requires u == "" || IsReserved(u[0])
    ensures Bare(u) == Span("", 0)
    ensures forall q :: RunsOn(q, u) <==> Acc(q, u)
  {
    BareStops(u);
    assert u[0..] == u;
  }

  /** Past a value another value, or nothing that can be read, is in the wrong place. */
  predicate AfterAValue(q: State) {
    q.Selector? || q.AfterItem? || q.Done?
  }

  lemma GapInside(x: string, u: string)
    ensures IsSpaces(x) || Gap(x + u) < |x|
  {
    hide IsSpace;
    var s := x + u;
    if Gap(s) >= |x| {
      forall i | 0 <= i < |x| ensures IsSpace(x[i]) {
        assert x[i] == s[..Gap(s)][i];
      }
    }
  }

  lemma TextIsDeadEnd(q: State, x: string, u: string)
    requires AfterAValue(q) && !HasReserved(x) && !IsSpaces(x)
    ensures !Acc(q, x + u)
  {
    hide Stream, Lexeme, Bare, Acc, IsSpace, IsReserved;
    var s := x + u;
    var g := Gap(s);
    GapInside(x, u);
    assert s[g..][0] == x[g] && !IsReserved(x[g]);
    PlainLexeme(s[g..]);
    StreamPastGap(s);
    FirstIsDeadEnd(q, s);
  }

  lemma EndingRuns(q: State, v: string, u: string)
    requires AfterAValue(q) && !HasReserved(v) && (u == "" || IsReserved(u[0]))
    ensures match Ending(v)
      case Whole => RunsOn(q, v + u) <==> Acc(q, u)
      case Dangling => RunsOn(q, v + u) <==> u != "" && RunsOn(q, u[1..])
      case Broken => !RunsOn(q, v + u)
  {
    hide Bare, Accepts, Stream, IsReserved, IsSpace;
    BareConcat(v, u);
    ClosedStops(u);
    match Bare(v)
    case NoSpan =>
      if u != "" && Bare(u[1..]).Span? {
        assert (v + u)[|v| + 1 + Bare(u[1..]).len..] == u[1..][Bare(u[1..]).len..];
      }
    case Span(x, n) =>
      assert Bare(v + u).Span? && Bare(v + u).len == n && (v + u)[n..] == v[n..] + u;
      if IsSpaces(v[n..]) {
        BlankReads(v[n..], u);
      } else {
        assert !HasReserved(v[n..]) by { assert forall i | n <= i < |v| :: v[n..][i - n] == v[i]; }
        TextIsDeadEnd(q, v[n..], u);
      }
  }

  lemma TailIsFree(v: string, n: nat)
    requires n <= |v| && !HasReserved(v)
    ensures !HasReserved(v[n..])
  {
  }

  /** Where a value is to start: blanks are skipped, and then a bare value runs. */
  lemma FreshRuns(q: State, v: string, u: string)
    requires TakesValue(q) && !HasReserved(v)
    ensures IsSpaces(v) ==> (Acc(q, v + u) <==> Acc(q, u))
    ensures !IsSpaces(v) ==> (Acc(q, v + u) <==> RunsOn(AfterValue(q), v[Gap(v)..] + u))
  {
    hide Stream, Bare, Accepts, IsReserved, RunsOn, AfterValue;
    if IsSpaces(v) {
      BlankReads(v, u);
    } else {
      var g := Gap(v);
      GapInside(v, "");
      assert v + "" == v;
      assert v + u == v[..g] + (v[g..] + u);
      BlankReads(v[..g], v[g..] + u);
      assert (v[g..] + u)[0] == v[g] && !IsReserved(v[g]);
      BareStart(q, v[g..] + u);
    }
  }

  // ----- a literal -----

  ghost predicate Goes(q: State, s: string, running: bool) {
    if running then RunsOn(AfterValue(q), s) else Acc(q, s)
  }

  lemma QuotedRuns(q: State, v: string, u: string, running: bool)
    requires (q.Argument? || q.Item?) && NeedsQuotes(v)
    ensures running ==> !Goes(q, LiteralText(v) + u, true)
    ensures !running ==> (Goes(q, LiteralText(v) + u, false) <==> Acc(AfterValue(q), u))
  {
    hide Stream, Bare, Accepts, NeedsQuotes, Escape;
    var t := LiteralText(v);
    assert (t + u)[0] == '"' && IsReserved('"');
    QuotedStream(v, u);
    AccStep(q, t + u, TokValue(v), u);
    if running {
      ClosedStops(t + u);
      FirstIsDeadEnd(AfterValue(q), t + u);
    }
  }

  lemma QuotedStream(v: string, u: string)
    requires NeedsQuotes(v)
    ensures Stream(LiteralText(v) + u) == [TokValue(v)] + Stream(u)
  {
    hide Stream, NeedsQuotes, Spell, LiteralText, Safe;
    SafeIsQuotedOrBare(v);
    SafeLiteralSpells(v);
    PieceReads(Piece("", TokValue(v), LiteralStyle(v)), u);
    assert "" + LiteralText(v) + u == LiteralText(v) + u;
  }

  /** One literal of an argument list, and what follows it. */
  lemma ItemRuns(q: State, v: string, u: string, running: bool)
    requires (q.Argument? || q.Item?) && Closed(u)
    ensures match Reads(v, running)
      case Whole => Goes(q, LiteralText(v) + u, running) <==> Acc(AfterValue(q), u)
      case Dangling => Goes(q, LiteralText(v) + u, running) <==> u != "" && Goes(q, u[1..], true)
      case Broken => !Goes(q, LiteralText(v) + u, running)
  {
    hide Stream, Bare, Accepts, Ending, Escape, RunsOn, HasReserved;
    if NeedsQuotes(v) {
      QuotedRuns(q, v, u, running);
    } else if running {
      EndingRuns(AfterValue(q), v, u);
    } else {
      FreshRuns(q, v, u);
      if IsSpaces(v) {
        EndOpensNothing(u);
        FirstIsDeadEnd(q, u);
      } else {
        TailIsFree(v, Gap(v));
        EndingRuns(AfterValue(q), v[Gap(v)..], u);
      }
    }
  }

  // ----- what may follow a printed operand -----

  /** No value can be read here, neither by one that runs on nor as a list item. */
  ghost predicate Jams(s: string) {
    forall n: nat :: !RunsOn(Done(n), s) && !RunsOn(AfterItem(n), s) && !Acc(Item(n), s)
  }

  /** What follows a printed operand inside `e` groups: it closes no more than that, and not
      even that once its first bracket has been swallowed. */
  ghost predicate Tail(u: string, e: int) {
    && Closed(u)
    && (forall n: nat :: Acc(Done(n), u) ==> n <= e)
    && (u != "" && u[0] == ')' ==> Closed(u[1..]) && forall n: nat :: Acc(Done(n), u[1..]) ==> n < e)
    && (u != "" && u[0] != ')' ==> Jams(u[1..]))
  }

  lemma ClosedMark(q: State, u: string)
    requires Closed(u)
    ensures u == "" ==> (Acc(q, u) <==> q == Done(0))
    ensures u != "" && u[0] == ')' ==> (Acc(q, u) <==> Acc(Step(q, TokRParen), u[1..]))
    ensures u != "" && u[0] == ',' ==> (Acc(q, u) <==> Acc(Step(q, TokOr), u[1..]))
    ensures u != "" && u[0] == ';' ==> (Acc(q, u) <==> Acc(Step(q, TokAnd), u[1..]))
  {
    hide Stream, Accepts, Step;
    if u == "" {
      EndReads(q);
    } else {
      assert u == [u[0]] + u[1..];
      var sym := if u[0] == ')' then TokRParen else if u[0] == ',' then TokOr else TokAnd;
      MarkReads(q, sym, u[1..]);
    }
  }

  lemma EndReads(q: State)
    ensures Acc(q, "") <==> q == Done(0)
  {
    hide Stream;
    SpacesReadAsEnd("");
  }

  // ----- selectors -----

  lemma {:induction false} LettersRead(name: string)
    requires forall i | 0 <= i < |name| :: 'a' <= name[i] <= 'z'
    ensures Bare(name) == Span(name, |name|) && !HasReserved(name)
  {
    if name != "" {
      LettersRead(name[1..]);
      assert name == [name[0]] + name[1..];
    }
  }

  /** The operator without its first character: letters, and then the '=' that ends it. */
  lemma OpInside(op: Operator, rest: string) returns (k: nat)
    ensures var s := (op.Text() + rest)[1..];
      && k < |s| && Bare(s) == Span(s[..k], k) && s[k] == '=' && s[k..] == "=" + rest
  {
    hide Bare;
    var t := op.Text();
    k := |t| - 2;
    var name, s := t[1..|t| - 1], (t + rest)[1..];
    OpCode(op);
    OpInsideIsLetters(op);
    LettersRead(name);
    assert t == [t[0]] + name + "=";
    assert s == name + ("=" + rest);
    BareConcat(name, "=" + rest);
    ClosedStops("=" + rest);
    assert name + "" == name && s[..k] == name;
  }

  lemma OpCharStream(s: string)
    requires s != "" && (s[0] == '=' || s[0] == '!')
    ensures Stream(s)[0].TokOp? || Stream(s)[0].TokBad?
  {
    hide Stream, OpLexeme;
    NoGap(s);
    StreamPastGap(s);
    assert Lexeme(s) == OpLexeme(s);
  }

  /** A value cannot end at an operator, unless it is a selector. */
  lemma OpJams(q: State, s: string)
    requires q.Done? || q.AfterItem? || q.Item?
    requires s != "" && (s[0] == '=' || s[0] == '!')
    ensures !Acc(q, s)
  {
    hide Stream;
    OpCharStream(s);
    FirstIsDeadEnd(q, s);
  }

  lemma SelectorRunsOn(q: State, x: string, op: Operator, rest: string)
    requires !HasReserved(x) && (q.Done? || q.AfterItem?)
    ensures !RunsOn(q, x + (op.Text() + rest))
  {
    hide Stream, Accepts, Bare, IsReserved, HasReserved, Acc;
    var w := op.Text() + rest;
    OpStarts(op, rest);
    OpCode(op);
    EndingRuns(q, x, w);
    match Ending(x)
    case Whole => OpJams(q, w);
    case Dangling => var k := OpInside(op, rest); OpJams(q, w[1..][k..]);
    case Broken =>
  }

  lemma SelectorJams(x: string, op: Operator, rest: string)
    requires !HasReserved(x)
    ensures Jams(x + (op.Text() + rest))
  {
    hide Stream, Accepts, RunsOn, HasReserved, Acc;
    var w := op.Text() + rest;
    OpStarts(op, rest);
    OpCode(op);
    forall n: nat ensures !RunsOn(Done(n), x + w) && !RunsOn(AfterItem(n), x + w) && !Acc(Item(n), x + w) {
      SelectorRunsOn(Done(n), x, op, rest);
      SelectorRunsOn(AfterItem(n), x, op, rest);
      FreshRuns(Item(n), x, w);
      if IsSpaces(x) {
        OpJams(Item(n), w);
      } else {
        TailIsFree(x, Gap(x));
        SelectorRunsOn(AfterItem(n), x[Gap(x)..], op, rest);
      }
    }
  }

  lemma {:induction false} WordSpan(s: string)
    requires Word(s).Span?
    ensures s[..Word(s).len] == Word(s).text + "="
  {
    if s[0] != '=' {
      WordSpan(s[1..]);
      assert s == [s[0]] + s[1..];
      assert s[..Word(s).len] == [s[0]] + s[1..][..Word(s[1..]).len];
    }
  }

  lemma NamedOpIsUnknown(rest: string)
    requires StartsArgument(rest)
    ensures var found := OpLexeme("=" + rest); found.Lexed? ==> LookupOperator(found.sym.text).Err?
  {
    hide Word, LookupOperator;
    var j :| 0 <= j <= |rest| && ArgumentUpTo(rest, j);
    var s := "=" + rest;
    assert s[1..] == rest && (rest != "" ==> s[1] == rest[0]);
    assert rest != "" ==> rest[0] != '=' by { assert j == 0 || rest[0] != '='; }
    var found := Word(rest);
    if found.Span? {
      WordSpan(rest);
      var name := found.text;
      assert rest[|name|] == rest[..found.len][|name|] == '=' && IsReserved('=');
      assert j < |name| && rest[j] == rest[..found.len][j] == name[j];
      UnknownName(name, j);
    }
  }

  lemma UnknownName(name: string, j: nat)
    requires j < |name| && !('a' <= name[j] <= 'z')
    ensures LookupOperator("=" + name + "=").Err?
  {
    hide LookupOperator;
    var text := "=" + name + "=";
    assert text[j + 1] == name[j] && |text| >= 3;
    if LookupOperator(text).Ok? {
      AliasIsNamed(text);
    }
  }

  /** An operator that lost its first character to the selector is none. */
  lemma LostOpIsDeadEnd(n: nat, rest: string)
    requires StartsArgument(rest)
    ensures !Acc(Selector(n), "=" + rest)
  {
    hide Stream, OpLexeme, LookupOperator, StartsArgument;
    var s := "=" + rest;
    NoGap(s);
    StreamPastGap(s);
    assert Lexeme(s) == OpLexeme(s);
    NamedOpIsUnknown(rest);
    FirstIsDeadEnd(Selector(n), s);
  }

  lemma OpStream(op: Operator, rest: string)
    ensures Stream(op.Text() + rest) == [TokOp(op.Text())] + Stream(rest)
  {
    hide Stream;
    OpSymbolIsPlain(op);
    CanonicalTextLooksUp(op);
    PieceReads(Piece("", TokOp(op.Text()), Unquoted([])), rest);
    assert "" + op.Text() + rest == op.Text() + rest;
  }

  lemma OpReadsOn(n: nat, op: Operator, rest: string)
    ensures Acc(Selector(n), op.Text() + rest) <==> Acc(Argument(n), rest)
  {
    hide Stream, Acc;
    OpStream(op, rest);
    CanonicalTextLooksUp(op);
    AccStep(Selector(n), op.Text() + rest, TokOp(op.Text()), rest);
  }

  /** A selector and its operator, where a constraint is to start. */
  lemma SelectorRuns(n: nat, x: string, op: Operator, rest: string)
    requires !HasReserved(x) && StartsArgument(rest)
    ensures Acc(Start(n), x + (op.Text() + rest)) <==> SelectorReads(x).Whole? && Acc(Argument(n), rest)
  {
    hide Stream, Accepts, Bare, Acc, StartsArgument, HasReserved, Ending;
    var w := op.Text() + rest;
    OpStarts(op, rest);
    OpCode(op);
    FreshRuns(Start(n), x, w);
    if IsSpaces(x) {
      OpCharStream(w);
      FirstIsDeadEnd(Start(n), w);
    } else {
      var t := x[Gap(x)..];
      TailIsFree(x, Gap(x));
      EndingRuns(Selector(n), t, w);
      match Ending(t)
      case Whole => OpReadsOn(n, op, rest);
      case Dangling => var k := OpInside(op, rest); LostOpIsDeadEnd(n, rest);
      case Broken =>
    }
  }

  // ----- argument lists -----

  lemma MoreMark(q: State, parts: seq<string>, sep: char, u: string)
    requires parts != [] && Separator(sep)
    ensures var m := More(parts, sep) + u;
      && Closed(m) && m != ""
      && (|parts| == 1 ==> m[1..] == u && (Acc(q, m) <==> Acc(Step(q, TokRParen), u)))
      && (|parts| > 1 ==> m[1..] == Join(parts[1..], [sep]) + ")" + u)
      && (|parts| > 1 && sep == ',' ==> (Acc(q, m) <==> Acc(Step(q, TokOr), m[1..])))
      && (|parts| > 1 && sep == ';' ==> (Acc(q, m) <==> Acc(Step(q, TokAnd), m[1..])))
  {
    hide Stream, Accepts, Step, More, Join, Acc;
    MoreFirst(parts, sep, u);
    ClosedMark(q, More(parts, sep) + u);
  }

  /** A list whose last bracket was swallowed leaves a group open, or is no list. */
  lemma SwallowedListEnd(n: nat, u: string, e: int)
    requires Closed(u) && Tail(u, e)
    ensures RunsOn(AfterItem(n), u) ==> n < e
  {
    hide Stream, Accepts, Bare, Acc;
    ClosedStops(u);
    ClosedMark(AfterItem(n), u);
    StuckNeverAccepts(u);
    if u != "" { StuckNeverAccepts(u[1..]); }
  }

  lemma StuckNeverAccepts(s: string)
    ensures !Acc(Stuck, s)
  {
    StuckAccepts(Stream(s));
  }

  lemma {:induction false} ListRuns(vs: seq<string>, running: bool, u: string, n: nat, e: int)
    requires vs != [] && Closed(u)
    ensures var s := Join(LiteralTexts(vs), ",") + ")" + u;
      && (ListReads(vs, running) ==> (Goes(Item(n), s, running) <==> Acc(Done(n), u)))
      && (!ListReads(vs, running) && Tail(u, e) && Goes(Item(n), s, running) ==> n < e)
    decreases |vs|
  {
    hide Stream, Accepts, Acc, RunsOn, Join, More, LiteralText, Reads, Tail, Closed;
    var parts := LiteralTexts(vs);
    var m := More(parts, ',') + u;
    JoinIsMore(parts, ',', u);
    MoreMark(AfterItem(n), parts, ',', u);
    ItemRuns(Item(n), vs[0], m, running);
    if |vs| > 1 {
      assert parts[1..] == LiteralTexts(vs[1..]);
    }
    match Reads(vs[0], running)
    case Whole =>
      if |vs| > 1 { ListRuns(vs[1..], false, u, n, e); }
    case Dangling =>
      if |vs| > 1 {
        ListRuns(vs[1..], true, u, n, e);
      } else if Tail(u, e) {
        SwallowedListEnd(n, u, e);
      }
    case Broken =>
  }

  // ----- comparisons -----

  /** A lone value that swallows what follows it leaves a group open, or is no value. */
  lemma SwallowedEnd(n: nat, u: string, e: int)
    requires Tail(u, e) && u != "" && RunsOn(Done(n), u[1..])
    ensures n < e
  {
    hide Stream, Accepts, Bare, Acc;
    if u[0] == ')' {
      ClosedStops(u[1..]);
    }
  }

  lemma ArgsRun(values: seq<Value>, u: string, n: nat, e: int)
    requires values != [] && Closed(u)
    ensures var s, good := PrintArgs(values) + u, ListReads(Keys(Text, values), false);
      && (good ==> (Acc(Argument(n), s) <==> Acc(Done(n), u)))
      && (!good && Tail(u, e) && Acc(Argument(n), s) ==> n < e)
  {
    hide Stream, Accepts, Acc, RunsOn, Join, LiteralText, Reads, Tail, Closed;
    var vs := Keys(Text, values);
    if |values| == 1 {
      ItemRuns(Argument(n), vs[0], u, false);
      if Reads(vs[0], false).Dangling? && Tail(u, e) && Acc(Argument(n), LiteralText(vs[0]) + u) {
        SwallowedEnd(n, u, e);
      }
    } else {
      var row := Join(LiteralTexts(vs), ",") + ")" + u;
      ListArgs(values, u);
      assert PrintArgs(values) + u == "(" + row;
      MarkReads(Argument(n), TokLParen, row);
      ListRuns(vs, false, u, n, e);
    }
  }

  /** The text of an operand, read where a constraint is to start: if the operand is readable
      the machine comes out behind it, and otherwise no end of input is reached with everything
      closed, for some group stays open. */
  ghost predicate Passes(b: Bound, u: string, n: nat, e: int) {
    && (Readable(b) ==> (Acc(Start(n), Print(b) + u) <==> Acc(Done(n), u)))
    && (!Readable(b) && Tail(u, e) && Acc(Start(n), Print(b) + u) ==> n < e)
  }

  lemma LeafRuns(b: Bound, u: string, n: nat, e: int)
    requires Grouped(b) && ClearSelectors(b) && b.BoundComparison? && Closed(u)
    ensures Passes(b, u, n, e)
  {
    hide Stream, Accepts, Acc, PrintArgs, Print, SelectorReads, HasReserved, Tail, Closed, ListReads, StartsArgument;
    var rest := PrintArgs(b.values) + u;
    LeafPrint(b, u);
    ArgsStartArgument(b.values, u);
    SelectorRuns(n, b.selector, b.op, rest);
    ArgsRun(b.values, u, n, e);
  }

  // ----- trees -----

  lemma OperandJams(b: Bound, u: string)
    requires Grouped(b) && ClearSelectors(b)
    ensures Jams(Print(b) + u)
  {
    hide Stream, Accepts, PrintArgs, Acc;
    if b.BoundComparison? {
      LeafPrint(b, u);
      SelectorJams(b.selector, b.op, PrintArgs(b.values) + u);
    } else {
      GroupOpens(b, u);
      BracketJams(Print(b) + u);
    }
  }

  lemma BracketJams(s: string)
    requires s != "" && s[0] == '('
    ensures Jams(s)
  {
    hide Stream, Accepts, Bare, Acc;
    var row := s[1..];
    assert s == "(" + row;
    ClosedStops(s);
    StuckNeverAccepts(row);
    forall n: nat ensures !RunsOn(Done(n), s) && !RunsOn(AfterItem(n), s) && !Acc(Item(n), s) {
      MarkReads(Done(n), TokLParen, row);
      MarkReads(AfterItem(n), TokLParen, row);
      MarkReads(Item(n), TokLParen, row);
    }
  }

  lemma GroupOpens(b: Bound, u: string)
    requires b.BoundAnd? || b.BoundOr?
    ensures Print(b) + u != "" && (Print(b) + u)[0] == '('
  {
    hide Join;
  }

  lemma TailClose(u: string, e: int)
    requires Tail(u, e)
    ensures Tail(")" + u, e + 1)
  {
    hide Stream, Accepts, Acc, Jams;
    var s := ")" + u;
    assert s[0] == ')' && s[1..] == u;
    StuckNeverAccepts(u);
    forall n: nat ensures Acc(Done(n), s) ==> n <= e + 1 {
      ClosedMark(Done(n), s);
    }
  }

  lemma TailSep(sep: char, b: Bound, u: string, e: int)
    requires Separator(sep) && Grouped(b) && ClearSelectors(b) && Tail(u, e)
    requires forall n: nat :: Passes(b, u, n, e)
    ensures Tail([sep] + (Print(b) + u), e)
  {
    hide Stream, Accepts, Acc, Jams, Print, Readable;
    var s := [sep] + (Print(b) + u);
    assert s[0] == sep && s[1..] == Print(b) + u;
    OperandJams(b, u);
    forall n: nat ensures Acc(Done(n), s) ==> n <= e {
      ClosedMark(Done(n), s);
      assert Passes(b, u, n, e);
    }
  }

  lemma {:induction false} TreeRuns(b: Bound, u: string, n: nat, e: int)
    requires Grouped(b) && ClearSelectors(b) && Closed(u)
    ensures Passes(b, u, n, e)
    decreases b
  {
    hide Stream, Accepts, Acc, Print, Tail, Closed;
    if b.BoundComparison? {
      LeafRuns(b, u, n, e);
    } else {
      var sep := if b.BoundAnd? then ';' else ',';
      var row := Join(PrintAll(b.nodes), [sep]) + ")" + u;
      GroupOpens(b, u);
      GroupPrint(b, sep, u);
      assert Print(b) + u == "(" + row;
      MarkReads(Start(n), TokLParen, row);
      RowRuns(b.nodes, sep, u, n, e);
    }
  }

  lemma MoreStarts(parts: seq<string>, sep: char, u: string)
    requires parts != []
    ensures More(parts, sep) + u == if |parts| == 1 then ")" + u else [sep] + (Join(parts[1..], [sep]) + ")" + u)
  {
    hide Join, More;
    MoreFirst(parts, sep, u);
    var m := More(parts, sep) + u;
    assert m == [m[0]] + m[1..];
  }

  lemma {:induction false} RowTail(ns: seq<Bound>, sep: char, u: string, e: int)
    requires ns != [] && (forall m | m in ns :: Grouped(m) && ClearSelectors(m))
    requires Separator(sep) && Tail(u, e)
    ensures Tail(More(PrintAll(ns), sep) + u, e + 1)
    decreases ns, 0
  {
    hide Stream, Accepts, Acc, Print, Closed, Join, More, Readable, Grouped, ClearSelectors, Passes, Jams;
    var parts, inside := PrintAll(ns), e + 1;
    MoreStarts(parts, sep, u);
    if |ns| == 1 {
      TailClose(u, e);
    } else {
      RowTail(ns[1..], sep, u, e);
      assert parts[1..] == PrintAll(ns[1..]);
      var next := More(parts[1..], sep) + u;
      JoinIsMore(parts[1..], sep, u);
      forall k: nat ensures Passes(ns[1], next, k, inside) {
        TreeRuns(ns[1], next, k, inside);
      }
      TailSep(sep, ns[1], next, inside);
    }
  }

  /** The operands of a group from some operand on, with the group's bracket and what follows. */
  lemma {:induction false} RowRuns(ns: seq<Bound>, sep: char, u: string, n: nat, e: int)
    requires ns != [] && (forall m | m in ns :: Grouped(m) && ClearSelectors(m))
    requires Separator(sep) && Closed(u)
    ensures var row, all := Join(PrintAll(ns), [sep]) + ")" + u, (forall m | m in ns :: Readable(m));
      && (all ==> (Acc(Start(n + 1), row) <==> Acc(Done(n), u)))
      && (!all && Tail(u, e) && Acc(Start(n + 1), row) ==> n < e)
    decreases ns, 1
  {
    hide Stream, Accepts, Acc, Print, Tail, Closed, Join, More, Readable, Grouped, ClearSelectors;
    var parts := PrintAll(ns);
    var rest := More(parts, sep) + u;
    JoinIsMore(parts, sep, u);
    MoreMark(Done(n + 1), parts, sep, u);
    TreeRuns(ns[0], rest, n + 1, e + 1);
    if Tail(u, e) {
      RowTail(ns, sep, u, e);
    }
    assert forall m :: m in ns <==> m == ns[0] || m in ns[1..];
    if |ns| > 1 {
      RowRuns(ns[1..], sep, u, n, e);
      assert parts[1..] == PrintAll(ns[1..]);
    }
  }

  // ----- the main result -----

  lemma {:induction false} NormalKeepsClear(b: Bound)
    ensures ClearSelectors(Normal(b)) <==> ClearSelectors(b)
  {
    hide SortBy, Canon;
    match b
    case Nil =>
    case BoundAnd(ns) => NormalKeepsClearAll(ns);
    case BoundOr(ns) => NormalKeepsClearAll(ns);
    case BoundComparison(_, _, _, _) =>
  }

  lemma {:induction false} NormalKeepsClearAll(ns: seq<Bound>)
    ensures (forall m | m in SortBy(Canon, NormalAll(ns)) :: ClearSelectors(m))
       <==> (forall m | m in ns :: ClearSelectors(m))
  {
    hide SortBy, Canon, Normal, ClearSelectors;
    forall i | 0 <= i < |ns| ensures ClearSelectors(Normal(ns[i])) <==> ClearSelectors(ns[i]) {
      NormalKeepsClear(ns[i]);
    }
    EveryMember(ns, ClearSelectors);
  }

  lemma NothingFollows()
    ensures Tail("", 0)
  {
    hide Accepts, Stream;
    forall n: nat ensures Acc(Done(n), "") ==> n <= 0 {
      EndReads(Done(n));
    }
  }

  lemma PrintParsesIff(b: Bound)
    requires Grouped(b) && ClearSelectors(b)
    ensures ParseText(Print(b)).Ok? <==> Readable(b)
  {
    hide Accepts, Stream, Print, Readable, Tail;
    NothingFollows();
    TreeRuns(b, "", 0, 0);
    EndReads(Done(0));
    assert Print(b) + "" == Print(b);
    ParseIffAccepts(Stream(Print(b)));
  }

  /** The canonical form is valid RSQL exactly when, with values sorted as it prints them, every
      selector reads as one value and every argument list as one or more. */
  lemma {:induction false} CanonicalParsesIff(expr: string, s: Schema, lim: Limits, b: Bound)
    requires BindText(expr, s, lim) == Ok(b) && ClearSelectors(b)
    ensures ParseText(Canon(b)).Ok? <==> Readable(Normal(b))
  {
    hide BindText, ParseText, Canon, Normal, Readable, Conforms, ClearSelectors;
    AcceptedConforms(expr, s, lim);
    NormalConforms(b, s);
    ConformsIsGrouped(Normal(b), s);
    NormalKeepsClear(b);
    PrintParsesIff(Normal(b));
    CanonPrintsNormal(b);
  }
}
