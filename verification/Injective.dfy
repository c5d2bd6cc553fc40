/** Equal canonical strings mean equal filters up to order, for filters bound against one
    schema (rsql/canonical.go:10-52). The print is uniquely readable even where the lexer
    would not read it back: empty values, bare backslashes and unusual spaces included. */
module Injectivity {
  import opened Runes
  import opened Ordering
  import opened Numbers
  import opened Syntax
  import opened Lexing
  import opened Spelling
  import opened Schemas
  import opened Canonicals
  import opened Literals
  import opened Rebinding

  /** What follows a printed operand or value: nothing, a separator or a closing bracket. */
  predicate Closed(u: string) {
    u == "" || u[0] == ',' || u[0] == ';' || u[0] == ')'
  }

  lemma ReservedFreePrefix(a: string, u: string, c: string, w: string)
    requires !HasReserved(a) && !HasReserved(c)
    requires (u == "" || IsReserved(u[0])) && (w == "" || IsReserved(w[0]))
    requires a + u == c + w
    ensures a == c && u == w
  {
    var s := a + u;
    assert forall i | 0 <= i < |a| :: s[i] == a[i] && !IsReserved(a[i]);
    assert forall i | 0 <= i < |c| :: s[i] == c[i] && !IsReserved(c[i]);
    assert |a| < |s| ==> s[|a|] == u[0];
    assert |c| < |s| ==> s[|c|] == w[0];
    assert a == (a + u)[..|a|] && u == (a + u)[|a|..];
    assert c == (c + w)[..|c|] && w == (c + w)[|c|..];
  }

  /** What a quoted literal holds, and what follows it, can be read off the text. */
  lemma QuotedLiteralReads(v: string, u: string)
    ensures var s := ("\"" + Escape(v) + "\"" + u)[1..];
      Quoted(s, '"') == Span(v, |Escape(v)| + 1) && s[|Escape(v)| + 1..] == u
  {
    hide Quoted, Escape, SpellInQuotes;
    EscapeSpells(v);
    InQuotesReads(v, '"', [], u);
    assert ("\"" + Escape(v) + "\"" + u)[1..] == Escape(v) + ['"'] + u;
  }

  lemma QuotedPrefix(v: string, u: string, x: string, w: string)
    requires "\"" + Escape(v) + "\"" + u == "\"" + Escape(x) + "\"" + w
    ensures v == x && u == w
  {
    hide Quoted, Escape;
    QuotedLiteralReads(v, u);
    QuotedLiteralReads(x, w);
  }

  /** A literal ends where it must: two literals with the same text and continuation are one. */
  lemma LiteralPrefix(v: string, u: string, x: string, w: string)
    requires Closed(u) && Closed(w)
    requires LiteralText(v) + u == LiteralText(x) + w
    ensures v == x && u == w
  {
    hide Escape, NeedsQuotes;
    QuoteMark(v, u);
    QuoteMark(x, w);
    if NeedsQuotes(v) {
      QuotedPrefix(v, u, x, w);
    } else {
      UnquotedIsFree(v);
      UnquotedIsFree(x);
      ReservedFreePrefix(v, u, x, w);
    }
  }

  lemma UnquotedIsFree(v: string)
    requires !NeedsQuotes(v)
    ensures !HasReserved(v)
  {
  }

  /** A literal is quoted exactly when it starts with a quote. */
  lemma QuoteMark(v: string, u: string)
    requires Closed(u)
    ensures var s := LiteralText(v) + u; NeedsQuotes(v) <==> s != "" && s[0] == '"'
  {
    hide Escape;
    if !NeedsQuotes(v) && v != "" {
      assert !IsReserved(v[0]);
    }
  }

  /** No literal starts like a list. */
  lemma LiteralIsNoList(v: string, u: string)
    requires Closed(u) && LiteralText(v) + u != ""
    ensures (LiteralText(v) + u)[0] != '('
  {
    hide Escape;
    if !NeedsQuotes(v) && v != "" {
      assert !IsReserved(v[0]);
    }
  }

  lemma OpPrefix(o: Operator, u: string, p: Operator, w: string)
    requires o.Text() + u == p.Text() + w
    ensures o == p && u == w
  {
    var s := o.Text() + u;
    OpCode(o);
    OpCode(p);
    assert forall i | 0 <= i < |o.Text()| :: s[i] == o.Text()[i];
    assert forall i | 0 <= i < |p.Text()| :: s[i] == p.Text()[i];
    assert u == s[|o.Text()|..] && w == s[|p.Text()|..];
  }

  /** The first three characters tell the canonical operators apart. */
  lemma OpCode(o: Operator)
    ensures var t := o.Text();
      match o
      case OpEq => |t| == 2 && t[0] == '=' && t[1] == '='
      case OpNeq => |t| == 2 && t[0] == '!'
      case OpGt => |t| == 4 && t[0] == '=' && t[1] == 'g' && t[2] == 't'
      case OpGe => |t| == 4 && t[0] == '=' && t[1] == 'g' && t[2] == 'e'
      case OpLt => |t| == 4 && t[0] == '=' && t[1] == 'l' && t[2] == 't'
      case OpLe => |t| == 4 && t[0] == '=' && t[1] == 'l' && t[2] == 'e'
      case OpIn => |t| == 4 && t[0] == '=' && t[1] == 'i'
      case OpNotIn => |t| == 5 && t[0] == '=' && t[1] == 'o'
  {
  }

  function LiteralTexts(vs: seq<string>): (r: seq<string>)
    ensures |r| == |vs|
    ensures forall i | 0 <= i < |vs| :: r[i] == LiteralText(vs[i])
  {
    seq(|vs|, i requires 0 <= i < |vs| => LiteralText(vs[i]))
  }

  /** The rest of a printed list after its first item. */
  function More(parts: seq<string>, sep: char): string
    requires parts != []
  {
    if |parts| == 1 then ")" else [sep] + Join(parts[1..], [sep]) + ")"
  }

  lemma JoinIsMore(parts: seq<string>, sep: char, u: string)
    requires parts != []
    ensures Join(parts, [sep]) + ")" + u == parts[0] + (More(parts, sep) + u)
  {
  }

  lemma MoreFirst(parts: seq<string>, sep: char, u: string)
    requires parts != []
    ensures var m := More(parts, sep) + u;
      && m != "" && m[0] == (if |parts| == 1 then ')' else sep)
      && m[1..] == if |parts| == 1 then u else Join(parts[1..], [sep]) + ")" + u
  {
    hide Join;
    if |parts| > 1 {
      assert More(parts, sep) + u == [sep] + (Join(parts[1..], [sep]) + ")" + u);
    }
  }

  predicate Separator(sep: char) {
    sep == ',' || sep == ';'
  }

  /** After the first item two lists either both end or both go on with one separator. */
  lemma MoreSplits(p: seq<string>, sep: char, u: string, q: seq<string>, sep': char, w: string)
    requires p != [] && q != [] && Separator(sep) && Separator(sep')
    requires More(p, sep) + u == More(q, sep') + w
    ensures (|p| == 1 <==> |q| == 1) && (|p| == 1 ==> u == w)
    ensures |p| > 1 ==> sep == sep' && Join(p[1..], [sep]) + ")" + u == Join(q[1..], [sep']) + ")" + w
  {
    hide Join, More;
    MoreFirst(p, sep, u);
    MoreFirst(q, sep', w);
  }

  lemma {:induction false} ListPrefix(vs: seq<string>, u: string, xs: seq<string>, w: string)
    requires vs != [] && xs != []
    requires Join(LiteralTexts(vs), ",") + ")" + u == Join(LiteralTexts(xs), ",") + ")" + w
    ensures vs == xs && u == w
  {
    hide LiteralText, Join, More;
    var p, q := LiteralTexts(vs), LiteralTexts(xs);
    var m, n := More(p, ',') + u, More(q, ',') + w;
    JoinIsMore(p, ',', u);
    JoinIsMore(q, ',', w);
    MoreFirst(p, ',', u);
    MoreFirst(q, ',', w);
    LiteralPrefix(vs[0], m, xs[0], n);
    MoreSplits(p, ',', u, q, ',', w);
    if |vs| > 1 {
      assert p[1..] == LiteralTexts(vs[1..]) && q[1..] == LiteralTexts(xs[1..]);
      ListPrefix(vs[1..], u, xs[1..], w);
    }
    assert vs == [vs[0]] + vs[1..] && xs == [xs[0]] + xs[1..];
  }

  // ----- comparisons -----

  /** Values of one kind are told apart by their print. */
  lemma TextInjective(v: Value, x: Value, k: Kind)
    requires HasKind(v, k) && HasKind(x, k) && Text(v) == Text(x)
    ensures v == x
  {
    if k.KindInt? {
      FormatIntInjective(v.i, x.i);
    } else if k.KindBool? {
      FormatBoolParses(v.b);
      FormatBoolParses(x.b);
    }
  }

  lemma TextsInjective(vs: seq<Value>, xs: seq<Value>, k: Kind)
    requires forall v | v in vs :: HasKind(v, k)
    requires forall x | x in xs :: HasKind(x, k)
    requires Keys(Text, vs) == Keys(Text, xs)
    ensures vs == xs
  {
    hide Text, HasKind;
    assert |vs| == |Keys(Text, vs)| == |xs|;
    forall i | 0 <= i < |vs| ensures vs[i] == xs[i] {
      assert Keys(Text, vs)[i] == Keys(Text, xs)[i];
      assert vs[i] in vs && xs[i] in xs;
      TextInjective(vs[i], xs[i], k);
    }
  }

  /** `x` starts like printed arguments, up to `i`: with a quote or a bracket, or with text that
      has no reserved character before a separator, a closing bracket or the end. */
  predicate ArgumentUpTo(x: string, i: nat)
    requires i <= |x|
  {
    && (forall j | 0 <= j < i :: !IsReserved(x[j]))
    && (i < |x| ==> x[i] == ',' || x[i] == ';' || x[i] == ')' || (i == 0 && (x[0] == '"' || x[0] == '(')))
  }

  ghost predicate StartsArgument(x: string) {
    exists i | 0 <= i <= |x| :: ArgumentUpTo(x, i)
  }

  /** An argument ends inside `x`. */
  ghost predicate HoldsArgument(x: string) {
    exists i: nat | i < |x| :: ArgumentUpTo(x, i)
  }

  /** `longer` starts with `key`, an operator and an argument that does not reach its end. */
  ghost predicate Extends(key: string, longer: string) {
    exists op: Operator | key + op.Text() <= longer :: HoldsArgument(longer[|key| + |op.Text()|..])
  }

  /** Keys that can be told apart as raw selectors: none starts like a group, and none starts
      like a comparison on another one. */
  ghost predicate PlainKeys(keys: set<string>) {
    && (forall k | k in keys :: k == "" || k[0] != '(')
    && (forall k, l | k in keys && l in keys :: !Extends(k, l))
  }

  /** All selectors of the tree are among `keys`. */
  predicate Uses(b: Bound, keys: set<string>) {
    match b
    case Nil => true
    case BoundAnd(ns) => forall m | m in ns :: Uses(m, keys)
    case BoundOr(ns) => forall m | m in ns :: Uses(m, keys)
    case BoundComparison(selector, _, _, _) => selector in keys
  }

  function PrintArgs(values: seq<Value>): string {
    if |values| == 1 then Literal(values[0]) else "(" + Join(Keys(Literal, values), ",") + ")"
  }

  /** A list of arguments starts with '(', a single one does not. */
  lemma ArgsStart(vs: seq<Value>, u: string)
    requires vs != [] && Closed(u)
    ensures var s := PrintArgs(vs) + u; |vs| == 1 <==> s == "" || s[0] != '('
  {
    hide Join, LiteralText;
    if |vs| == 1 && PrintArgs(vs) + u != "" {
      LiteralIsNoList(Text(vs[0]), u);
    }
  }

  lemma ListArgs(vs: seq<Value>, u: string)
    requires |vs| > 1
    ensures (PrintArgs(vs) + u)[1..] == Join(LiteralTexts(Keys(Text, vs)), ",") + ")" + u
  {
    hide Join, LiteralText;
    assert Keys(Literal, vs) == LiteralTexts(Keys(Text, vs));
  }

  lemma ArgsPrefix(vs: seq<Value>, u: string, xs: seq<Value>, w: string)
    requires vs != [] && xs != [] && Closed(u) && Closed(w)
    requires PrintArgs(vs) + u == PrintArgs(xs) + w
    ensures Keys(Text, vs) == Keys(Text, xs) && u == w
  {
    hide Join, LiteralText;
    ArgsStart(vs, u);
    ArgsStart(xs, w);
    if |vs| == 1 {
      LiteralPrefix(Text(vs[0]), u, Text(xs[0]), w);
      assert Keys(Text, vs) == [Text(vs[0])] && Keys(Text, xs) == [Text(xs[0])];
    } else {
      ListArgs(vs, u);
      ListArgs(xs, w);
      ListPrefix(Keys(Text, vs), u, Keys(Text, xs), w);
    }
  }

  lemma LeafPrint(b: Bound, u: string)
    requires b.BoundComparison?
    ensures Print(b) + u == b.selector + (b.op.Text() + (PrintArgs(b.values) + u))
  {
    hide PrintArgs;
    assert Print(b) == b.selector + b.op.Text() + PrintArgs(b.values) by { LeafPrintArgs(b); }
  }

  lemma LeafPrintArgs(b: Bound)
    requires b.BoundComparison?
    ensures Print(b) == b.selector + b.op.Text() + PrintArgs(b.values)
  {
    hide Join, Literal;
  }

  lemma OpInsideIsLetters(op: Operator)
    ensures var t := op.Text(); |t| >= 2 && t[|t| - 1] == '=' && forall i | 1 <= i < |t| - 1 :: 'a' <= t[i] <= 'z'
  {
  }

  lemma LiteralStartsArgument(v: string, u: string)
    requires Closed(u)
    ensures StartsArgument(LiteralText(v) + u)
  {
    hide Escape, IsReserved;
    var rest := LiteralText(v) + u;
    if NeedsQuotes(v) {
      assert rest[0] == '"';
      assert ArgumentUpTo(rest, 0);
    } else {
      UnquotedIsFree(v);
      assert forall i | 0 <= i < |v| :: rest[i] == v[i] && !IsReserved(v[i]);
      assert |v| < |rest| ==> rest[|v|] == u[0];
      assert ArgumentUpTo(rest, |v|);
    }
  }

  lemma ArgsStartArgument(values: seq<Value>, u: string)
    requires values != [] && Closed(u)
    ensures StartsArgument(PrintArgs(values) + u)
  {
    hide Join, LiteralText;
    if |values| == 1 {
      LiteralStartsArgument(Text(values[0]), u);
    } else {
      assert (PrintArgs(values) + u)[0] == '(';
      assert ArgumentUpTo(PrintArgs(values) + u, 0);
    }
  }

  /** Arguments do not go on as letters and '='. */
  lemma NoNameFollows(x: string, q: string, y: string)
    requires StartsArgument(x) && |q| >= 2 && q[|q| - 1] == '=' && forall i | 1 <= i < |q| - 1 :: 'a' <= q[i] <= 'z'
    ensures x != (q + y)[1..]
  {
    var z, n := (q + y)[1..], |q| - 2;
    var j :| 0 <= j <= |x| && ArgumentUpTo(x, j);
    assert z[n] == '=' && forall i | 0 <= i < n :: z[i] == q[i + 1];
    if n < j {
      assert IsReserved('=') && x[n] != '=';
    } else if j < |x| {
      assert z[j] == '=' || 'a' <= z[j] <= 'z';
    }
  }

  /** An operator cut short is no operator again. */
  lemma CutOpDiffers(o: Operator, d: nat, x: string, p: Operator, y: string)
    requires 0 < d < |o.Text()| && StartsArgument(x)
    ensures o.Text()[d..] + x != p.Text() + y
  {
    hide StartsArgument;
    var t, q := o.Text(), p.Text();
    var s, z := t[d..] + x, q + y;
    OpInsideIsLetters(o);
    OpInsideIsLetters(p);
    OpCode(p);
    assert s[0] == t[d] && z[0] == q[0];
    if d == |t| - 1 {
      assert t[d..] == "=" && s[1..] == x;
      NoNameFollows(x, q, y);
    }
  }

  /** An argument that goes on with an operator ends before it. */
  lemma ArgumentEndsEarlier(x: string, r: string, q: string)
    requires StartsArgument(x) && x == r + q && q != "" && (q[0] == '=' || q[0] == '!')
    ensures HoldsArgument(r)
  {
    var i :| 0 <= i <= |x| && ArgumentUpTo(x, i);
    assert x[|r|] == q[0] && IsReserved(q[0]);
    assert forall j | 0 <= j < |r| :: x[j] == r[j];
    assert i < |r| && ArgumentUpTo(r, i);
  }

  lemma LongerPrefix(a: string, t: string, x: string, c: string, q: string)
    requires a + (t + x) == c + q && |a| + |t| <= |c|
    ensures a + t <= c && x == c[|a| + |t|..] + q
  {
    var s, n := a + (t + x), |a| + |t|;
    assert s[..n] == a + t && (c + q)[..n] == c[..n];
    assert s[n..] == x && (c + q)[n..] == c[n..] + q;
  }

  lemma LongerKeyExtends(a: string, o: Operator, x: string, c: string, p: Operator, y: string)
    requires StartsArgument(x) && |a| + |o.Text()| <= |c|
    requires a + (o.Text() + x) == c + (p.Text() + y)
    ensures Extends(a, c)
  {
    hide StartsArgument, HoldsArgument;
    var q := p.Text() + y;
    OpCode(p);
    LongerPrefix(a, o.Text(), x, c, q);
    ArgumentEndsEarlier(x, c[|a| + |o.Text()|..], q);
  }

  /** The operator shows where a selector ends, unless another one goes on like a comparison. */
  lemma SelectorIsNoPrefix(a: string, o: Operator, x: string, c: string, p: Operator, y: string)
    requires StartsArgument(x) && !Extends(a, c) && |a| < |c|
    ensures a + (o.Text() + x) != c + (p.Text() + y)
  {
    hide StartsArgument, Extends;
    var t, d := o.Text(), |c| - |a|;
    var s, z := a + (t + x), c + (p.Text() + y);
    if d < |t| {
      assert s[|c|..] == t[d..] + x && z[|c|..] == p.Text() + y;
      CutOpDiffers(o, d, x, p, y);
    } else if s == z {
      LongerKeyExtends(a, o, x, c, p, y);
    }
  }

  lemma SelectorPrefix(a: string, o: Operator, x: string, c: string, p: Operator, y: string)
    requires StartsArgument(x) && StartsArgument(y) && !Extends(a, c) && !Extends(c, a)
    requires a + (o.Text() + x) == c + (p.Text() + y)
    ensures a == c && o.Text() + x == p.Text() + y
  {
    hide StartsArgument, Extends;
    if |a| < |c| {
      SelectorIsNoPrefix(a, o, x, c, p, y);
    } else if |c| < |a| {
      SelectorIsNoPrefix(c, p, y, a, o, x);
    } else {
      var s := a + (o.Text() + x);
      assert a == s[..|a|] && c == s[..|a|] && s[|a|..] == o.Text() + x && s[|a|..] == p.Text() + y;
    }
  }

  lemma OpStarts(o: Operator, x: string)
    ensures var s := o.Text() + x; s != "" && IsReserved(s[0])
  {
    OpCode(o);
  }

  lemma LeafPrefix(b: Bound, u: string, c: Bound, w: string, s: Schema, keys: set<string>)
    requires b.BoundComparison? && c.BoundComparison?
    requires Conforms(b, s) && Conforms(c, s) && Uses(b, keys) && Uses(c, keys) && PlainKeys(keys)
    requires Closed(u) && Closed(w)
    requires Print(b) + u == Print(c) + w
    ensures b == c && u == w
  {
    hide Print, PrintArgs, HasKind, StartsArgument, Extends;
    var x, y := PrintArgs(b.values) + u, PrintArgs(c.values) + w;
    LeafPrint(b, u);
    LeafPrint(c, w);
    ArgsStartArgument(b.values, u);
    ArgsStartArgument(c.values, w);
    SelectorPrefix(b.selector, b.op, x, c.selector, c.op, y);
    OpPrefix(b.op, x, c.op, y);
    ArgsPrefix(b.values, u, c.values, w);
    TextsInjective(b.values, c.values, b.field.kind);
  }

  // ----- trees -----

  lemma PrintStart(b: Bound, s: Schema, keys: set<string>)
    requires Conforms(b, s) && Uses(b, keys) && PlainKeys(keys)
    ensures Print(b) != "" && (Print(b)[0] == '(' <==> !b.BoundComparison?)
  {
    hide Join, PrintAll, Extends;
    if b.BoundComparison? {
      OpCode(b.op);
      assert Print(b)[0] == if b.selector == "" then b.op.Text()[0] else b.selector[0];
    }
  }

  lemma GroupPrint(b: Bound, sep: char, u: string)
    requires (b.BoundAnd? && sep == ';') || (b.BoundOr? && sep == ',')
    ensures (Print(b) + u)[1..] == Join(PrintAll(b.nodes), [sep]) + ")" + u
  {
    hide Join;
  }

  /** Printed trees are uniquely readable. */
  lemma {:induction false} PrintPrefix(b: Bound, u: string, c: Bound, w: string, s: Schema, keys: set<string>)
    requires Conforms(b, s) && Conforms(c, s) && Uses(b, keys) && Uses(c, keys) && PlainKeys(keys)
    requires Closed(u) && Closed(w)
    requires Print(b) + u == Print(c) + w
    ensures b == c && u == w
    decreases b
  {
    hide Print, PlainKeys;
    PrintStart(b, s, keys);
    PrintStart(c, s, keys);
    assert (Print(b) + u)[0] == Print(b)[0] && (Print(c) + w)[0] == Print(c)[0];
    if b.BoundComparison? {
      LeafPrefix(b, u, c, w, s, keys);
    } else {
      var sep, sep' := if b.BoundAnd? then ';' else ',', if c.BoundAnd? then ';' else ',';
      GroupPrint(b, sep, u);
      GroupPrint(c, sep', w);
      GroupPrefix(b.nodes, sep, u, c.nodes, sep', w, s, keys);
    }
  }

  lemma {:induction false} GroupPrefix(bs: seq<Bound>, sep: char, u: string, cs: seq<Bound>, sep': char, w: string,
                                            s: Schema, keys: set<string>)
    requires bs != [] && cs != [] && PlainKeys(keys)
    requires forall b | b in bs :: Conforms(b, s) && Uses(b, keys)
    requires forall c | c in cs :: Conforms(c, s) && Uses(c, keys)
    requires Separator(sep) && Separator(sep')
    requires Join(PrintAll(bs), [sep]) + ")" + u == Join(PrintAll(cs), [sep']) + ")" + w
    ensures bs == cs && u == w && (|bs| > 1 ==> sep == sep')
    decreases bs
  {
    hide Print, Join, Conforms, Uses, PlainKeys, More;
    var p, q := PrintAll(bs), PrintAll(cs);
    JoinIsMore(p, sep, u);
    JoinIsMore(q, sep', w);
    MoreFirst(p, sep, u);
    MoreFirst(q, sep', w);
    PrintPrefix(bs[0], More(p, sep) + u, cs[0], More(q, sep') + w, s, keys);
    MoreSplits(p, sep, u, q, sep', w);
    if |bs| > 1 {
      assert p[1..] == PrintAll(bs[1..]) && q[1..] == PrintAll(cs[1..]);
      GroupPrefix(bs[1..], sep, u, cs[1..], sep', w, s, keys);
    }
    assert bs == [bs[0]] + bs[1..] && cs == [cs[0]] + cs[1..];
  }

  lemma {:induction false} NormalKeepsUses(b: Bound, keys: set<string>)
    ensures Uses(Normal(b), keys) <==> Uses(b, keys)
  {
    hide SortBy, Canon;
    match b
    case Nil =>
    case BoundAnd(ns) => NormalKeepsUsesAll(ns, keys);
    case BoundOr(ns) => NormalKeepsUsesAll(ns, keys);
    case BoundComparison(_, _, _, _) =>
  }

  lemma {:induction false} NormalKeepsUsesAll(ns: seq<Bound>, keys: set<string>)
    ensures (forall m | m in SortBy(Canon, NormalAll(ns)) :: Uses(m, keys)) <==> (forall m | m in ns :: Uses(m, keys))
  {
    hide SortBy, Canon, Normal, Uses;
    forall i | 0 <= i < |ns| ensures Uses(Normal(ns[i]), keys) <==> Uses(ns[i], keys) {
      NormalKeepsUses(ns[i], keys);
    }
    EveryMember(ns, m => Uses(m, keys));
  }

  // ----- the main result -----

  /** The canonical string identifies a filter up to order: for filters of one schema whose
      keys are plain, equal strings and equality up to permuting operands and values at every
      level are the same thing. */
  lemma {:induction false} EqualCanonIffSame(b: Bound, c: Bound, s: Schema, keys: set<string>)
    requires Conforms(b, s) && Conforms(c, s) && Uses(b, keys) && Uses(c, keys) && PlainKeys(keys)
    ensures Canon(b) == Canon(c) <==> Same(b, c)
  {
    hide Canon, Normal, Print, Conforms, Uses, PlainKeys, Same;
    if Canon(b) == Canon(c) {
      EqualCanonGivesEqualNormal(b, c, s, keys);
      EqualNormalGivesSame(b, c);
    }
    if Same(b, c) {
      SameGivesEqualCanon(b, c);
    }
  }

  /** And then the sorted trees are equal, not only equal up to order. */
  lemma {:induction false} EqualCanonGivesEqualNormal(b: Bound, c: Bound, s: Schema, keys: set<string>)
    requires Conforms(b, s) && Conforms(c, s) && Uses(b, keys) && Uses(c, keys) && PlainKeys(keys)
    requires Canon(b) == Canon(c)
    ensures Normal(b) == Normal(c)
  {
    hide Canon, Normal, Print, Conforms, Uses, PlainKeys;
    CanonPrintsNormal(b);
    CanonPrintsNormal(c);
    NormalConforms(b, s);
    NormalConforms(c, s);
    NormalKeepsUses(b, keys);
    NormalKeepsUses(c, keys);
    assert Print(Normal(b)) + "" == Print(Normal(c)) + "";
    PrintPrefix(Normal(b), "", Normal(c), "", s, keys);
  }
}
