/** The recursive-descent parser (rsql/parse.go), reading one token ahead from a lazy lexer.
    Its methods are proved to run the recognizer of module Grammar on the symbols still to
    come, although they stop at the first lexical error they meet and never tokenize ahead. */
module Parsing {
  import opened Results
  import opened Syntax
  import opened Lexing
  import opened Grammar

  /** What `parse` returns, as a function of the text. */
  function ParseText(s: string): Result<Node> {
    ParseAll(Stream(s))
  }

  /** The recognizer failed, or it has run into the place where the lexer gave up: either way
      the whole input is not in the language. */
  ghost predicate Doomed<T>(p: Parsed<T>) {
    p.NoParse? || p.rest == [TokBad]
  }

  /** Nothing can be parsed where the lexer has given up. */
  lemma NothingAtBad()
    ensures ParseArguments([TokBad]).NoParse?
    ensures ParseAtom([TokBad]).NoParse?
    ensures ParseConj([TokBad]).NoParse?
    ensures ParseDisj([TokBad]).NoParse?
  {
  }

  class Parser {
    const lex: Lexer
    var tok: Token

    ghost predicate Valid()
      reads this, lex
    {
      lex.Valid()
    }

    /** The symbols behind the current token. */
    ghost function Ahead(): seq<Symbol>
      requires Valid()
      reads this, lex
    {
      Stream(lex.Unread())
    }

    /** The current token and everything behind it. */
    ghost function Remaining(): seq<Symbol>
      requires Valid()
      reads this, lex
    {
      [tok.sym] + if tok.sym.TokEOF? then [] else Ahead()
    }

    constructor (s: string)
      ensures Valid() && fresh(lex)
      ensures lex.src == s && lex.pos == 0
      ensures tok == Token(TokEOF, 0)
    {
      lex := new Lexer(s);
      tok := Token(TokEOF, 0);
    }

    method Advance() returns (ok: bool)
      requires Valid()
      modifies this, lex
      ensures Valid()
      ensures ok ==> Remaining() == old(Ahead()) && tok.sym != TokBad
      ensures !ok ==> old(Ahead()) == [TokBad] && tok == old(tok)
      ensures old(tok.sym) != TokEOF ==> old(Remaining())[1..] == if ok then Remaining() else [TokBad]
    {
      hide Scan;
      ghost var unread := lex.Unread();
      ghost var found := Scan(unread);
      assert tok.sym != TokEOF ==> Remaining()[1..] == Ahead();
      var t := lex.Next();
      if t.Err? {
        return false;
      }
      tok := t.value;
      assert lex.Unread() == unread[found.skip + found.len..];
      return true;
    }

    method ParseOr() returns (r: Result<Node>)
      requires Valid()
      modifies this, lex
      ensures Valid()
      ensures r.Ok? ==> var p := ParseDisj(old(Remaining()));
        p.Parsed? && r.value == TreeDisj(p.tree) && Remaining() == p.rest
      ensures r.Err? ==> Doomed(ParseDisj(old(Remaining())))
      decreases |Remaining()|, 3
    {
      hide Stream, ParseConj, TreeConj, ConjOk;
      ghost var start := Remaining();
      var first := ParseAnd();
      if first.Err? {
        return Err;
      }
      var nodes := [first.value];
      ghost var terms := [ParseConj(start).tree];
      while tok.sym == TokOr
        invariant Valid() && |Remaining()| < |start|
        invariant terms != [] && forall c | c in terms :: ConjOk(c)
        invariant nodes == TreeTerms(terms)
        invariant ParseDisj(start) == ParseTerms(terms, Remaining())
        decreases |Remaining()|
      {
        ghost var here := Remaining();
        var ok := Advance();
        if !ok {
          NothingAtBad();
          assert here[1..] == [TokBad];
          return Err;
        }
        var n := ParseAnd();
        if n.Err? {
          return Err;
        }
        ghost var c := ParseConj(here[1..]).tree;
        TreeTermsAppend(terms, c);
        nodes := nodes + [n.value];
        terms := terms + [c];
      }
      if |nodes| == 1 {
        return Ok(nodes[0]);
      }
      return Ok(Or(nodes));
    }

    method ParseAnd() returns (r: Result<Node>)
      requires Valid()
      modifies this, lex
      ensures Valid()
      ensures r.Ok? ==> var p := ParseConj(old(Remaining()));
        p.Parsed? && r.value == TreeConj(p.tree) && Remaining() == p.rest
      ensures r.Err? ==> Doomed(ParseConj(old(Remaining())))
      decreases |Remaining()|, 2
    {
      hide Stream, ParseAtom, TreeAtom, AtomOk;
      ghost var start := Remaining();
      var first := ParseConstraint();
      if first.Err? {
        return Err;
      }
      var nodes := [first.value];
      ghost var factors := [ParseAtom(start).tree];
      while tok.sym == TokAnd
        invariant Valid() && |Remaining()| < |start|
        invariant factors != [] && forall a | a in factors :: AtomOk(a)
        invariant nodes == TreeFactors(factors)
        invariant ParseConj(start) == ParseFactors(factors, Remaining())
        decreases |Remaining()|
      {
        ghost var here := Remaining();
        var ok := Advance();
        if !ok {
          NothingAtBad();
          assert here[1..] == [TokBad];
          return Err;
        }
        var n := ParseConstraint();
        if n.Err? {
          return Err;
        }
        ghost var a := ParseAtom(here[1..]).tree;
        TreeFactorsAppend(factors, a);
        nodes := nodes + [n.value];
        factors := factors + [a];
      }
      if |nodes| == 1 {
        return Ok(nodes[0]);
      }
      return Ok(And(nodes));
    }

    method ParseConstraint() returns (r: Result<Node>)
      requires Valid()
      modifies this, lex
      ensures Valid()
      ensures r.Ok? ==> var p := ParseAtom(old(Remaining()));
        p.Parsed? && r.value == TreeAtom(p.tree) && Remaining() == p.rest
      ensures r.Err? ==> Doomed(ParseAtom(old(Remaining())))
      decreases |Remaining()|, 1
    {
      hide Stream, ParseDisj, TreeDisj, DisjOk, ParseTest;
      ghost var start := Remaining();
      if tok.sym == TokLParen {
        var ok := Advance();
        if !ok {
          return Err;
        }
        assert Remaining() == start[1..];
        var n := ParseOr();
        if n.Err? {
          return Err;
        }
        if tok.sym != TokRParen {
          return Err;
        }
        ok := Advance();
        if !ok {
          return Err;
        }
        return n;
      }
      r := ParseComparison();
    }

    method ParseComparison() returns (r: Result<Node>)
      requires Valid()
      modifies this, lex
      ensures Valid()
      ensures r.Ok? ==> var p := ParseTest(old(Remaining()));
        p.Parsed? && r.value == TreeAtom(p.tree) && Remaining() == p.rest
      ensures r.Err? ==> Doomed(ParseTest(old(Remaining())))
    {
      hide Stream, ParseArguments;
      ghost var start := Remaining();
      if !tok.sym.TokValue? {
        return Err;
      }
      var selector := tok.sym.text;
      var ok := Advance();
      if !ok {
        return Err;
      }
      assert Remaining() == start[1..];
      if !tok.sym.TokOp? {
        return Err;
      }
      var op := LookupOperator(tok.sym.text);
      if op.Err? {
        return Err;
      }
      ok := Advance();
      if !ok {
        NothingAtBad();
        assert start == [start[0], start[1], TokBad] && start[2..] == [TokBad];
        return Err;
      }
      assert Remaining() == start[2..];
      var args := ReadArguments();
      if args.Err? {
        return Err;
      }
      return Ok(Comparison(selector, op.value, args.value));
    }

    /** parseArguments. */
    method ReadArguments() returns (r: Result<seq<string>>)
      requires Valid()
      modifies this, lex
      ensures Valid()
      ensures r.Ok? ==> var p := ParseArguments(old(Remaining()));
        && p.Parsed? && Remaining() == p.rest
        && r.value == if p.tree.Single? then [p.tree.value] else p.tree.values
      ensures r.Err? ==> Doomed(ParseArguments(old(Remaining())))
    {
      hide Stream;
      ghost var start := Remaining();
      if tok.sym != TokLParen {
        if !tok.sym.TokValue? {
          return Err;
        }
        var v := tok.sym.text;
        var ok := Advance();
        if !ok {
          return Err;
        }
        return Ok([v]);
      }
      var ok := Advance();
      if !ok {
        return Err;
      }
      var args: seq<string> := [];
      ghost var here := Remaining();
      while true
        invariant Valid()
        invariant ParseArguments(start) == ParseValues(args, Remaining())
        decreases |Remaining()|
      {
        here := Remaining();
        if !tok.sym.TokValue? {
          return Err;
        }
        args := args + [tok.sym.text];
        ok := Advance();
        if !ok {
          return Err;
        }
        assert here[1..] == Remaining();
        assert here[2..] == Remaining()[1..];
        if tok.sym == TokOr {
          ok := Advance();
          if !ok {
            return Err;
          }
          continue;
        }
        break;
      }
      if tok.sym != TokRParen {
        return Err;
      }
      ok := Advance();
      if !ok {
        return Err;
      }
      assert ParseArguments(start) == Parsed(Listed(args), here[2..]);
      return Ok(args);
    }
  }

  method Parse(s: string) returns (r: Result<Node>)
    ensures r == ParseText(s)
  {
    hide Stream, ParseDisj, TreeDisj;
    var p := new Parser(s);
    assert p.lex.Unread() == s;
    var ok := p.Advance();
    if !ok {
      return Err;
    }
    var n := p.ParseOr();
    if n.Err? {
      return Err;
    }
    if p.tok.sym != TokEOF {
      return Err;
    }
    return n;
  }
}
