/** The hand-written tokenizer (rsql/lex.go). `Scan` says what one call of `next` does to the
    unread text; `Stream` is every symbol the parser can ever see; class `Lexer` is the
    mutable reader, proved against them. */
module Lexing {
  import opened Results
  import opened Runes
  import opened Syntax

  /** A decoded text and the number of runes it was read from. */
  datatype Span = Span(text: string, len: nat) | NoSpan {
    function After(decoded: string, read: nat): Span {
      match this
      case Span(t, n) => Span(decoded + t, read + n)
      case NoSpan => NoSpan
    }
  }

  /** The body of a quoted value, from just after the opening quote through the closing one. */
  function Quoted(s: string, q: char): (r: Span)
    ensures r.Span? ==> 1 <= r.len <= |s|
  {
    if s == "" then NoSpan
    else if s[0] == '\\' then if |s| == 1 then NoSpan else Quoted(s[2..], q).After([s[1]], 2)
    else if s[0] == q then Span("", 1)
    else Quoted(s[1..], q).After([s[0]], 1)
  }

  /** A bare value: it ends before a space or reserved character, or at the end of input. */
  function Bare(s: string): (r: Span)
    ensures r.Span? ==> r.len <= |s| && (r.text == "" <==> r.len == 0)
  {
    if s == "" then Span("", 0)
    else if s[0] == '\\' then if |s| == 1 then NoSpan else Bare(s[2..]).After([s[1]], 2)
    else if IsSpace(s[0]) || IsReserved(s[0]) then Span("", 0)
    else Bare(s[1..]).After([s[0]], 1)
  }

  /** The readers' loop invariants: `b` has been decoded from the first `n` runes of `s`, and
      reading goes on from there. */
  ghost predicate BareSoFar(s: string, n: nat, b: string) {
    n <= |s| && Bare(s) == Bare(s[n..]).After(b, n)
  }

  ghost predicate QuotedSoFar(s: string, q: char, n: nat, b: string) {
    n <= |s| && Quoted(s, q) == Quoted(s[n..], q).After(b, n)
  }

  ghost predicate WordSoFar(s: string, n: nat, b: string) {
    n <= |s| && Word(s) == Word(s[n..]).After(b, n)
  }

  lemma AfterTwice(x: Span, near: string, n: nat, far: string, m: nat)
    ensures x.After(near, n).After(far, m) == x.After(far + near, m + n)
  {
    if x.Span? { assert far + (near + x.text) == far + near + x.text; }
  }

  lemma SoFarNothing(s: string, q: char)
    ensures BareSoFar(s, 0, "") && QuotedSoFar(s, q, 0, "") && WordSoFar(s, 0, "")
  {
    assert s[0..] == s;
    if Bare(s).Span? { assert "" + Bare(s).text == Bare(s).text; }
    if Word(s).Span? { assert "" + Word(s).text == Word(s).text; }
    if Quoted(s, q).Span? { assert "" + Quoted(s, q).text == Quoted(s, q).text; }
  }

  lemma BareReadsOn(s: string, n: nat, b: string)
    requires BareSoFar(s, n, b)
    ensures n == |s| ==> Bare(s) == Span(b, n)
    ensures n < |s| && s[n] == '\\' && n + 1 == |s| ==> Bare(s) == NoSpan
    ensures n < |s| && s[n] == '\\' && n + 1 < |s| ==> BareSoFar(s, n + 2, b + [s[n + 1]])
    ensures n < |s| && s[n] != '\\' && (IsSpace(s[n]) || IsReserved(s[n])) ==> Bare(s) == Span(b, n)
    ensures n < |s| && s[n] != '\\' && !IsSpace(s[n]) && !IsReserved(s[n]) ==> BareSoFar(s, n + 1, b + [s[n]])
  {
    var u := s[n..];
    assert b + "" == b;
    if u != "" && u[0] == '\\' && |u| > 1 {
      assert u[2..] == s[n + 2..];
      AfterTwice(Bare(u[2..]), [u[1]], 2, b, n);
    } else if u != "" && u[0] != '\\' && !IsSpace(u[0]) && !IsReserved(u[0]) {
      assert u[1..] == s[n + 1..];
      AfterTwice(Bare(u[1..]), [u[0]], 1, b, n);
    }
  }

  lemma WordReadsOn(s: string, n: nat, b: string)
    requires WordSoFar(s, n, b)
    ensures n == |s| ==> Word(s) == NoSpan
    ensures n < |s| && s[n] == '=' ==> Word(s) == Span(b, n + 1)
    ensures n < |s| && s[n] != '=' && !IsLetter(s[n]) ==> Word(s) == NoSpan
    ensures n < |s| && s[n] != '=' && IsLetter(s[n]) ==> WordSoFar(s, n + 1, b + [s[n]])
  {
    var u := s[n..];
    assert b + "" == b;
    if u != "" && u[0] != '=' && IsLetter(u[0]) {
      assert u[1..] == s[n + 1..];
      AfterTwice(Word(u[1..]), [u[0]], 1, b, n);
    }
  }

  lemma QuotedReadsOn(s: string, q: char, n: nat, b: string)
    requires QuotedSoFar(s, q, n, b)
    ensures n == |s| ==> Quoted(s, q) == NoSpan
    ensures n < |s| && s[n] == '\\' && n + 1 == |s| ==> Quoted(s, q) == NoSpan
    ensures n < |s| && s[n] == '\\' && n + 1 < |s| ==> QuotedSoFar(s, q, n + 2, b + [s[n + 1]])
    ensures n < |s| && s[n] != '\\' && s[n] == q ==> Quoted(s, q) == Span(b, n + 1)
    ensures n < |s| && s[n] != '\\' && s[n] != q ==> QuotedSoFar(s, q, n + 1, b + [s[n]])
  {
    var u := s[n..];
    assert b + "" == b;
    if u != "" && u[0] == '\\' && |u| > 1 {
      assert u[2..] == s[n + 2..];
      AfterTwice(Quoted(u[2..], q), [u[1]], 2, b, n);
    } else if u != "" && u[0] != '\\' && u[0] != q {
      assert u[1..] == s[n + 1..];
      AfterTwice(Quoted(u[1..], q), [u[0]], 1, b, n);
    }
  }

  /** The letters of a named operator and its closing '='. */
  function Word(s: string): (r: Span)
    ensures r.Span? ==> r.len <= |s| && r.len == |r.text| + 1
  {
    if s == "" then NoSpan
    else if s[0] == '=' then Span("", 1)
    else if !IsLetter(s[0]) then NoSpan
    else Word(s[1..]).After([s[0]], 1)
  }

  function Gap(s: string): (n: nat)
    ensures n <= |s| && IsSpaces(s[..n])
    ensures n < |s| ==> !IsSpace(s[n])
  {
    if s == "" || !IsSpace(s[0]) then 0 else 1 + Gap(s[1..])
  }

  lemma GapGoesOn(s: string, n: nat)
    requires n < |s| && IsSpace(s[n])
    ensures Gap(s[n..]) == 1 + Gap(s[n + 1..])
  {
    assert s[n..][1..] == s[n + 1..];
  }

  lemma GapEnds(s: string, n: nat)
    requires n == |s| || (n < |s| && !IsSpace(s[n]))
    ensures Gap(s[n..]) == 0
  {
  }

  datatype Lexed = Lexed(sym: Symbol, len: nat) | LexError

  function OpLexeme(s: string): (r: Lexed)
    requires s != ""
    ensures r.Lexed? ==> 1 <= r.len <= |s| && r.sym.TokOp?
  {
    if s[0] == '!' then
      if |s| < 2 || s[1] != '=' then LexError else Lexed(TokOp("!="), 2)
    else if s[0] == '<' || s[0] == '>' then
      if |s| >= 2 && s[1] == '=' then Lexed(TokOp([s[0]] + "="), 2) else Lexed(TokOp([s[0]]), 1)
    else if |s| >= 2 && s[1] == '=' then Lexed(TokOp("=="), 2)
    else
      match Word(s[1..])
      case NoSpan => LexError
      case Span(name, n) => Lexed(TokOp("=" + name + "="), 1 + n)
  }

  function QuotedLexeme(s: string): (r: Lexed)
    requires s != ""
    ensures r.Lexed? ==> 1 <= r.len <= |s| && r.sym.TokValue?
  {
    match Quoted(s[1..], s[0])
    case NoSpan => LexError
    case Span(text, n) => Lexed(TokValue(text), 1 + n)
  }

  function BareLexeme(s: string): (r: Lexed)
    ensures r.Lexed? ==> 1 <= r.len <= |s| && r.sym.TokValue?
  {
    match Bare(s)
    case NoSpan => LexError
    case Span(text, n) => if text == "" then LexError else Lexed(TokValue(text), n)
  }

  /** One token at the front of a text that does not start with a space. */
  function Lexeme(s: string): (r: Lexed)
    requires s != ""
    ensures r.Lexed? ==> 1 <= r.len <= |s| && !r.sym.TokEOF? && !r.sym.TokBad?
  {
    match s[0]
    case '(' => Lexed(TokLParen, 1)
    case ')' => Lexed(TokRParen, 1)
    case ';' => Lexed(TokAnd, 1)
    case ',' => Lexed(TokOr, 1)
    case _ =>
      if s[0] == '=' || s[0] == '!' || s[0] == '<' || s[0] == '>' then OpLexeme(s)
      else if s[0] == '"' || s[0] == '\'' then QuotedLexeme(s)
      else BareLexeme(s)
  }

  datatype Scanned = Scanned(sym: Symbol, skip: nat, len: nat) | ScanError

  /** What one call of `next` finds in the unread text: the symbol, the spaces skipped before
      it and the runes it is made of. */
  function Scan(s: string): (r: Scanned)
    ensures r.Scanned? ==> r.skip + r.len <= |s| && IsSpaces(s[..r.skip]) && !r.sym.TokBad?
    ensures r.Scanned? && r.sym.TokEOF? ==> r.skip == |s| && r.len == 0
    ensures r.Scanned? && !r.sym.TokEOF? ==> r.len >= 1
  {
    var g := Gap(s);
    if g == |s| then Scanned(TokEOF, g, 0)
    else
      match Lexeme(s[g..])
      case LexError => ScanError
      case Lexed(sym, n) => Scanned(sym, g, n)
  }

  /** Everything the lexer produces from here on, ending in `TokEOF` or `TokBad`. */
  function Stream(s: string): (r: seq<Symbol>)
    ensures r != []
    decreases |s|
  {
    match Scan(s)
    case ScanError => [TokBad]
    case Scanned(sym, skip, n) => if sym.TokEOF? then [TokEOF] else [sym] + Stream(s[skip + n..])
  }

  /** The slices of the source that the tokens come from, each after the spaces before it. */
  function Slices(s: string): (r: seq<(string, string)>)
    decreases |s|
  {
    var found := Scan(s);
    if found.ScanError? then []
    else if found.sym.TokEOF? then [Slice(s, found)]
    else [Slice(s, found)] + Slices(s[found.skip + found.len..])
  }

  function Slice(s: string, found: Scanned): (string, string)
    requires found.Scanned? && found.skip + found.len <= |s|
  {
    (s[..found.skip], s[found.skip..found.skip + found.len])
  }

  function Glue(slices: seq<(string, string)>): string {
    if slices == [] then "" else slices[0].0 + slices[0].1 + Glue(slices[1..])
  }

  lemma GluePrepend(slice: (string, string), slices: seq<(string, string)>)
    ensures Glue([slice] + slices) == slice.0 + slice.1 + Glue(slices)
  {
    assert ([slice] + slices)[1..] == slices;
  }

  lemma SliceAndRest(s: string, found: Scanned)
    requires found.Scanned? && found.skip + found.len <= |s|
    ensures Slice(s, found).0 + Slice(s, found).1 + s[found.skip + found.len..] == s
  {
  }

  lemma SlicesStep(s: string, found: Scanned, rest: string)
    requires found == Scan(s) && found.Scanned? && !found.sym.TokEOF? && rest == s[found.skip + found.len..]
    ensures Slices(s) == [Slice(s, found)] + Slices(rest)
    ensures Stream(s) == [found.sym] + Stream(rest)
    ensures TokBad !in Stream(s) ==> TokBad !in Stream(rest)
  {
    hide Scan;
    forall i | 0 <= i < |Stream(rest)| ensures Stream(s)[i + 1] == Stream(rest)[i] {
    }
  }

  /** Tiling: when a text tokenizes to its end, gaps and tokens put side by side are exactly
      the text, with one slice per symbol; gaps hold spaces only, tokens some text. */
  lemma {:induction false} SlicesTileSource(s: string)
    requires TokBad !in Stream(s)
    ensures Glue(Slices(s)) == s && |Slices(s)| == |Stream(s)|
    ensures forall i | 0 <= i < |Slices(s)| :: IsSpaces(Slices(s)[i].0)
    ensures forall i | 0 <= i < |Slices(s)| - 1 :: Slices(s)[i].1 != ""
    decreases |s|
  {
    hide Scan;
    var found := Scan(s);
    if found.sym.TokEOF? {
      assert Slices(s) == [Slice(s, found)];
      GluePrepend(Slice(s, found), []);
      assert s[found.skip..] == "" && s[..found.skip] == s;
    } else {
      var rest := s[found.skip + found.len..];
      SlicesStep(s, found, rest);
      SliceAndRest(s, found);
      GluePrepend(Slice(s, found), Slices(rest));
      SlicesTileSource(rest);
    }
  }

  lemma {:induction false} StreamEnds(s: string)
    ensures var ts := Stream(s);
      && (ts[|ts| - 1] == TokEOF || ts[|ts| - 1] == TokBad)
      && forall i | 0 <= i < |ts| - 1 :: ts[i] != TokEOF && ts[i] != TokBad
    decreases |s|
  {
    hide Scan;
    var found := Scan(s);
    if found.Scanned? && !found.sym.TokEOF? {
      var rest := s[found.skip + found.len..];
      StreamEnds(rest);
      assert Stream(s) == [found.sym] + Stream(rest);
    }
  }

  class Lexer {
    const src: string
    var pos: nat

    ghost predicate Valid()
      reads this
    {
      pos <= |src|
    }

    function Unread(): string
      requires Valid()
      reads this
    {
      src[pos..]
    }

    constructor (text: string)
      ensures Valid() && src == text && pos == 0
    {
      src := text;
      pos := 0;
    }

    predicate AtEnd()
      reads this
    {
      pos >= |src|
    }

    /** On success the token is the one `Scan` finds, its position lies where the skipped
        spaces end, and the read position has moved just past it. */
    method Next() returns (r: Result<Token>)
      requires Valid()
      modifies this
      ensures Valid() && old(pos) <= pos
      ensures r.Ok? <==> Scan(old(Unread())).Scanned?
      ensures r.Ok? ==> var found := Scan(old(Unread()));
        && r.value == Token(found.sym, old(pos) + found.skip)
        && pos == old(pos) + found.skip + found.len
      ensures r.Ok? && !r.value.sym.TokEOF? ==> old(pos) <= r.value.pos < pos
    {
      hide OpLexeme, QuotedLexeme, BareLexeme, IsSpace, Gap;
      while !AtEnd() && IsSpace(src[pos])
        invariant old(pos) <= pos <= |src|
        invariant Gap(old(Unread())) == pos - old(pos) + Gap(src[pos..])
        decreases |src| - pos
      {
        GapGoesOn(src, pos);
        pos := pos + 1;
      }
      GapEnds(src, pos);
      assert old(Unread())[pos - old(pos)..] == src[pos..];
      if AtEnd() {
        return Ok(Token(TokEOF, pos));
      }
      var start := pos;
      match src[pos] {
        case '(' =>
          pos := pos + 1;
          r := Ok(Token(TokLParen, start));
        case ')' =>
          pos := pos + 1;
          r := Ok(Token(TokRParen, start));
        case ';' =>
          pos := pos + 1;
          r := Ok(Token(TokAnd, start));
        case ',' =>
          pos := pos + 1;
          r := Ok(Token(TokOr, start));
        case _ =>
          if src[pos] == '=' || src[pos] == '!' || src[pos] == '<' || src[pos] == '>' {
            r := ReadOp();
          } else if src[pos] == '"' || src[pos] == '\'' {
            r := ReadQuoted();
          } else {
            r := ReadBare();
          }
      }
    }

    method ReadOp() returns (r: Result<Token>)
      requires Valid() && !AtEnd()
      requires src[pos] == '=' || src[pos] == '!' || src[pos] == '<' || src[pos] == '>'
      modifies this
      ensures Valid() && old(pos) <= pos
      ensures r.Ok? <==> OpLexeme(old(Unread())).Lexed?
      ensures r.Ok? ==> var found := OpLexeme(old(Unread()));
        r.value == Token(found.sym, old(pos)) && pos == old(pos) + found.len
    {
      var start := pos;
      match src[pos] {
        case '!' =>
          pos := pos + 1;
          if AtEnd() || src[pos] != '=' {
            return Err;
          }
          pos := pos + 1;
          return Ok(Token(TokOp("!="), start));
        case '=' =>
        case c =>
          pos := pos + 1;
          if !AtEnd() && src[pos] == '=' {
            pos := pos + 1;
            return Ok(Token(TokOp([c] + "="), start));
          }
          return Ok(Token(TokOp([c]), start));
      }
      pos := pos + 1;
      if !AtEnd() && src[pos] == '=' {
        pos := pos + 1;
        return Ok(Token(TokOp("=="), start));
      }
      assert old(Unread())[1..] == src[start + 1..];
      var name := ReadWord();
      if name.Err? {
        return Err;
      }
      return Ok(Token(TokOp("=" + name.value + "="), start));
    }

    /** The loop of `ReadOp`: letters up to and including the closing '='. */
    method ReadWord() returns (r: Result<string>)
      requires Valid()
      modifies this
      ensures Valid() && old(pos) <= pos
      ensures r.Ok? <==> Word(old(Unread())).Span?
      ensures r.Ok? ==> Word(old(Unread())) == Span(r.value, pos - old(pos))
    {
      var name := "";
      ghost var body, n := Unread(), 0;
      SoFarNothing(body, ' ');
      while true
        invariant old(pos) <= pos <= |src| && n == pos - old(pos)
        invariant WordSoFar(body, n, name)
        decreases |src| - pos
      {
        WordReadsOn(body, n, name);
        if AtEnd() {
          return Err;
        }
        var c := src[pos];
        if c == '=' {
          pos := pos + 1;
          return Ok(name);
        }
        if !IsLetter(c) {
          return Err;
        }
        name, n := name + [c], n + 1;
        pos := pos + 1;
      }
    }

    method ReadQuoted() returns (r: Result<Token>)
      requires Valid() && !AtEnd()
      modifies this
      ensures Valid() && old(pos) <= pos
      ensures r.Ok? <==> QuotedLexeme(old(Unread())).Lexed?
      ensures r.Ok? ==> var found := QuotedLexeme(old(Unread()));
        r.value == Token(found.sym, old(pos)) && pos == old(pos) + found.len
    {
      var start := pos;
      var q := src[pos];
      pos := pos + 1;
      var b := "";
      ghost var body := src[start + 1..];
      assert old(Unread())[1..] == body;
      SoFarNothing(body, q);
      ghost var n := 0;
      while true
        invariant start < pos <= |src| && n == pos - start - 1
        invariant QuotedSoFar(body, q, n, b)
        decreases |src| - pos
      {
        QuotedReadsOn(body, q, n, b);
        if AtEnd() {
          return Err;
        }
        var c := src[pos];
        pos := pos + 1;
        if c == '\\' {
          if AtEnd() {
            return Err;
          }
          var esc := src[pos];
          pos := pos + 1;
          b, n := b + [esc], n + 2;
          continue;
        }
        if c == q {
          return Ok(Token(TokValue(b), start));
        }
        b, n := b + [c], n + 1;
      }
    }

    method ReadBare() returns (r: Result<Token>)
      requires Valid() && !AtEnd()
      modifies this
      ensures Valid() && old(pos) <= pos
      ensures r.Ok? <==> BareLexeme(old(Unread())).Lexed?
      ensures r.Ok? ==> var found := BareLexeme(old(Unread()));
        r.value == Token(found.sym, old(pos)) && pos == old(pos) + found.len
    {
      var start := pos;
      var b := "";
      ghost var body := old(Unread());
      SoFarNothing(body, ' ');
      ghost var n := 0;
      while !AtEnd()
        invariant start <= pos <= |src| && n == pos - start
        invariant BareSoFar(body, n, b)
        decreases |src| - pos
      {
        BareReadsOn(body, n, b);
        var c := src[pos];
        if c == '\\' {
          pos := pos + 1;
          if AtEnd() {
            return Err;
          }
          b, n := b + [src[pos]], n + 2;
          pos := pos + 1;
          continue;
        }
        if IsSpace(c) || IsReserved(c) {
          break;
        }
        b, n := b + [c], n + 1;
        pos := pos + 1;
      }
      BareReadsOn(body, n, b);
      if b == "" {
        return Err;
      }
      return Ok(Token(TokValue(b), start));
    }
  }
}
