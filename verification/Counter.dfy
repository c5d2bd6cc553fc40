/** The same language a third time, as a machine with one counter: it reads the symbols from
    left to right and remembers only where in a constraint it is and how many groups are open.
    This is what shows that a text cannot be parsed, however it goes on. */
module Counters {
  import opened Syntax
  import opened Grammar

  /** What comes next: a constraint, an operator, its argument, a list item, something after a
      list item, or something after a constraint. `open` counts the groups still open. */
  datatype State =
    | Start(open: nat)
    | Selector(open: nat)
    | Argument(open: nat)
    | Item(open: nat)
    | AfterItem(open: nat)
    | Done(open: nat)
    | Stuck

  function Step(q: State, sym: Symbol): State {
    match q
    case Start(n) => if sym == TokLParen then Start(n + 1) else if sym.TokValue? then Selector(n) else Stuck
    case Selector(n) => if sym.TokOp? && LookupOperator(sym.text).Ok? then Argument(n) else Stuck
    case Argument(n) => if sym == TokLParen then Item(n) else if sym.TokValue? then Done(n) else Stuck
    case Item(n) => if sym.TokValue? then AfterItem(n) else Stuck
    case AfterItem(n) => if sym == TokOr then Item(n) else if sym == TokRParen then Done(n) else Stuck
    case Done(n) =>
      if sym == TokOr || sym == TokAnd then Start(n)
      else if sym == TokRParen && n > 0 then Done(n - 1)
      else Stuck
    case Stuck => Stuck
  }

  /** The machine reads to the end of input with everything closed. */
  predicate Accepts(q: State, ts: seq<Symbol>)
    decreases |ts|
  {
    ts != [] && if ts[0] == TokEOF then q == Done(0) && |ts| == 1 else Accepts(Step(q, ts[0]), ts[1..])
  }

  lemma {:induction false} StuckAccepts(ts: seq<Symbol>)
    ensures !Accepts(Stuck, ts)
  {
    if ts != [] {
      StuckAccepts(ts[1..]);
    }
  }

  /** A symbol that leads nowhere ends the run. */
  lemma DeadEnd(q: State, ts: seq<Symbol>)
    requires ts != [] ==> Step(q, ts[0]) == Stuck && !(q == Done(0) && ts[0] == TokEOF)
    ensures !Accepts(q, ts)
  {
    if ts != [] {
      StuckAccepts(ts[1..]);
    }
  }

  // ----- each part of the recognizer is a stretch of the machine's run -----

  lemma {:induction false} ValuesRun(vs: seq<string>, ts: seq<Symbol>, n: nat)
    ensures var p := ParseValues(vs, ts); Accepts(Item(n), ts) <==> p.Parsed? && Accepts(Done(n), p.rest)
    decreases |ts|
  {
    if |ts| >= 2 && ts[0].TokValue? {
      assert ts[1..][1..] == ts[2..];
      if ts[1] == TokOr {
        ValuesRun(vs + [ts[0].text], ts[2..], n);
      } else if ts[1] != TokRParen {
        DeadEnd(AfterItem(n), ts[1..]);
      }
    } else if ts != [] && ts[0].TokValue? {
      DeadEnd(AfterItem(n), ts[1..]);
    } else {
      DeadEnd(Item(n), ts);
    }
  }

  lemma ArgumentsRun(ts: seq<Symbol>, n: nat)
    ensures var p := ParseArguments(ts); Accepts(Argument(n), ts) <==> p.Parsed? && Accepts(Done(n), p.rest)
  {
    hide ParseValues;
    if At(ts, TokLParen) {
      ValuesRun([], ts[1..], n);
    } else if !(ts != [] && ts[0].TokValue?) {
      DeadEnd(Argument(n), ts);
    }
  }

  lemma TestRun(ts: seq<Symbol>, n: nat)
    requires !At(ts, TokLParen)
    ensures var p := ParseTest(ts); Accepts(Start(n), ts) <==> p.Parsed? && Accepts(Done(n), p.rest)
  {
    hide ParseArguments;
    if ts == [] || !ts[0].TokValue? {
      DeadEnd(Start(n), ts);
    } else if |ts| >= 2 && ts[1].TokOp? && LookupOperator(ts[1].text).Ok? {
      assert ts[1..][1..] == ts[2..];
      ArgumentsRun(ts[2..], n);
    } else {
      DeadEnd(Selector(n), ts[1..]);
    }
  }

  lemma {:induction false} AtomRun(ts: seq<Symbol>, n: nat)
    ensures var p := ParseAtom(ts); Accepts(Start(n), ts) <==> p.Parsed? && Accepts(Done(n), p.rest)
    decreases |ts|, 1
  {
    hide ParseDisj, ParseTest;
    if At(ts, TokLParen) {
      DisjRun(ts[1..], n + 1);
      var p := ParseDisj(ts[1..]);
      if p.Parsed? && !At(p.rest, TokRParen) {
        DeadEnd(Done(n + 1), p.rest);
      }
    } else {
      TestRun(ts, n);
    }
  }

  lemma {:induction false} FactorsRun(factors: seq<Atom>, ts: seq<Symbol>, n: nat)
    requires factors != [] && forall a | a in factors :: AtomOk(a)
    ensures var p := ParseFactors(factors, ts);
      && (Accepts(Done(n), ts) <==> p.Parsed? && Accepts(Done(n), p.rest))
      && (p.Parsed? ==> !At(p.rest, TokAnd))
    decreases |ts|, 3
  {
    hide ParseAtom, AtomOk;
    if At(ts, TokAnd) {
      AtomRun(ts[1..], n);
      var p := ParseAtom(ts[1..]);
      if p.Parsed? {
        FactorsRun(factors + [p.tree], p.rest, n);
      }
    }
  }

  lemma {:induction false} ConjRun(ts: seq<Symbol>, n: nat)
    ensures var p := ParseConj(ts);
      && (Accepts(Start(n), ts) <==> p.Parsed? && Accepts(Done(n), p.rest))
      && (p.Parsed? ==> !At(p.rest, TokAnd))
    decreases |ts|, 2
  {
    hide ParseAtom, AtomOk;
    AtomRun(ts, n);
    var p := ParseAtom(ts);
    if p.Parsed? {
      FactorsRun([p.tree], p.rest, n);
    }
  }

  lemma {:induction false} TermsRun(terms: seq<Conj>, ts: seq<Symbol>, n: nat)
    requires terms != [] && forall c | c in terms :: ConjOk(c)
    requires !At(ts, TokAnd)
    ensures var p := ParseTerms(terms, ts);
      && (Accepts(Done(n), ts) <==> p.Parsed? && Accepts(Done(n), p.rest))
      && (p.Parsed? ==> !At(p.rest, TokAnd) && !At(p.rest, TokOr))
    decreases |ts|, 4
  {
    hide ParseConj, ConjOk;
    if At(ts, TokOr) {
      ConjRun(ts[1..], n);
      var p := ParseConj(ts[1..]);
      if p.Parsed? {
        TermsRun(terms + [p.tree], p.rest, n);
      }
    }
  }

  lemma {:induction false} DisjRun(ts: seq<Symbol>, n: nat)
    ensures var p := ParseDisj(ts);
      && (Accepts(Start(n), ts) <==> p.Parsed? && Accepts(Done(n), p.rest))
      && (p.Parsed? ==> !At(p.rest, TokAnd) && !At(p.rest, TokOr))
    decreases |ts|, 3
  {
    hide ParseConj, ConjOk;
    ConjRun(ts, n);
    var p := ParseConj(ts);
    if p.Parsed? {
      TermsRun([p.tree], p.rest, n);
    }
  }

  /** The machine accepts exactly what the recognizer, and so the parser, accepts. */
  lemma ParseIffAccepts(ts: seq<Symbol>)
    ensures ParseAll(ts).Ok? <==> Accepts(Start(0), ts)
  {
    hide ParseDisj, TreeDisj, DisjOk;
    DisjRun(ts, 0);
    var p := ParseDisj(ts);
    if p.Parsed? && p.rest != [TokEOF] {
      if p.rest != [] && p.rest[0] != TokEOF {
        DeadEnd(Done(0), p.rest);
      }
    }
  }
}
