/** The round trip end to end: what the normal form keeps, what binding a printed tree again
    needs, and the exact condition under which `Bind(Canonical(b))` returns the normal form. */
module Rebinding {
  import opened Results
  import opened Runes
  import opened Ordering
  import opened Numbers
  import opened Syntax
  import opened Parsing
  import opened Schemas
  import opened Canonicals
  import opened Literals
  import opened Echoes
  import opened RoundTrips

  // ----- what the normal form keeps -----

  lemma {:induction false} NormalConforms(b: Bound, s: Schema)
    requires Conforms(b, s)
    ensures Conforms(Normal(b), s)
  {
    hide SortBy, Canon;
    match b
    case BoundAnd(ns) => NormalAllConform(ns, s);
    case BoundOr(ns) => NormalAllConform(ns, s);
    case BoundComparison(_, _, _, values) => SortByMembers(Literal, values);
  }

  lemma {:induction false} NormalAllConform(ns: seq<Bound>, s: Schema)
    requires forall m | m in ns :: Conforms(m, s)
    ensures |SortBy(Canon, NormalAll(ns))| == |ns|
    ensures forall m | m in SortBy(Canon, NormalAll(ns)) :: Conforms(m, s)
  {
    hide Conforms, Normal;
    SortByMembers(Canon, NormalAll(ns));
    forall m | m in NormalAll(ns) ensures Conforms(m, s) {
      var i :| 0 <= i < |ns| && NormalAll(ns)[i] == m;
      NormalConforms(ns[i], s);
    }
  }

  /** Members of the sorted normal forms are the normal forms of the members. */
  lemma {:induction false} SortedMembers(ns: seq<Bound>)
    ensures forall i | 0 <= i < |ns| :: Normal(ns[i]) in SortBy(Canon, NormalAll(ns))
    ensures forall m | m in SortBy(Canon, NormalAll(ns)) :: exists i | 0 <= i < |ns| :: m == Normal(ns[i])
  {
    hide Normal, SortBy, Canon;
    SortByMembers(Canon, NormalAll(ns));
    forall i | 0 <= i < |ns| ensures Normal(ns[i]) in SortBy(Canon, NormalAll(ns)) {
      assert NormalAll(ns)[i] in NormalAll(ns);
    }
    forall m | m in SortBy(Canon, NormalAll(ns)) ensures exists i | 0 <= i < |ns| :: m == Normal(ns[i]) {
      var i :| 0 <= i < |ns| && NormalAll(ns)[i] == m;
    }
  }

  lemma {:induction false} EveryMember(ns: seq<Bound>, p: Bound -> bool)
    requires forall i | 0 <= i < |ns| :: p(Normal(ns[i])) <==> p(ns[i])
    ensures (forall m | m in SortBy(Canon, NormalAll(ns)) :: p(m)) <==> (forall m | m in ns :: p(m))
  {
    hide SortBy, Canon, Normal;
    SortedMembers(ns);
    if forall m | m in SortBy(Canon, NormalAll(ns)) :: p(m) {
      forall m | m in ns ensures p(m) {
        var i :| 0 <= i < |ns| && ns[i] == m;
      }
    }
    if forall m | m in ns :: p(m) {
      forall m | m in SortBy(Canon, NormalAll(ns)) ensures p(m) {
        var i :| 0 <= i < |ns| && m == Normal(ns[i]);
        assert ns[i] in ns;
      }
    }
  }

  /** A comparison whose text reads back: its selector needs no quoting or escaping, each value
      is safe, and an enumerated field also accepts the values as printed. */
  predicate LeafReadsBack(b: Bound)
    requires b.BoundComparison?
  {
    && IsBare(b.selector)
    && (forall v | v in b.values :: Safe(Text(v)))
    && (b.field.accepted != [] ==> forall v | v in b.values :: Text(v) in b.field.accepted)
  }

  predicate ReadsBack(b: Bound) {
    match b
    case Nil => true
    case BoundAnd(ns) => forall m | m in ns :: ReadsBack(m)
    case BoundOr(ns) => forall m | m in ns :: ReadsBack(m)
    case BoundComparison(_, _, _, _) => LeafReadsBack(b)
  }

  lemma {:induction false} NormalKeepsReadsBack(b: Bound)
    ensures ReadsBack(Normal(b)) <==> ReadsBack(b)
  {
    hide SortBy, Canon, Safe, IsBare, Text;
    match b
    case Nil =>
    case BoundAnd(ns) => NormalKeepsReadsBackAll(ns);
    case BoundOr(ns) => NormalKeepsReadsBackAll(ns);
    case BoundComparison(_, _, _, values) => SortByMembers(Literal, values);
  }

  lemma {:induction false} NormalKeepsReadsBackAll(ns: seq<Bound>)
    ensures (forall m | m in SortBy(Canon, NormalAll(ns)) :: ReadsBack(m)) <==> (forall m | m in ns :: ReadsBack(m))
  {
    hide SortBy, Canon, Normal, ReadsBack;
    forall i | 0 <= i < |ns| ensures ReadsBack(Normal(ns[i])) <==> ReadsBack(ns[i]) {
      NormalKeepsReadsBack(ns[i]);
    }
    EveryMember(ns, ReadsBack);
  }

  // ----- the limits see the same measures -----

  /** The measures of the syntax tree, taken on the bound tree. */
  function BoundSize(b: Bound): Size {
    match b
    case Nil => Size(0, 0, 0, 0)
    case BoundAnd(ns) => var t := BoundSizes(ns); t.(height := t.height + 1, ands := t.ands + |ns| - 1)
    case BoundOr(ns) => var t := BoundSizes(ns); t.(height := t.height + 1, ors := t.ors + |ns| - 1)
    case BoundComparison(_, _, _, _) => Size(1, 1, 0, 0)
  }

  function BoundSizes(ns: seq<Bound>): Size {
    if ns == [] then Size(0, 0, 0, 0) else Beside(BoundSize(ns[0]), BoundSizes(ns[1..]))
  }

  lemma {:induction false} BindKeepsSize(n: Node, s: Schema)
    requires Admissible(n, s)
    ensures BoundSize(BindNode(n, s)) == SizeOf(n)
  {
    match n
    case And(ns) => BindKeepsSizes(ns, s);
    case Or(ns) => BindKeepsSizes(ns, s);
    case Comparison(_, _, _) =>
  }

  lemma {:induction false} BindKeepsSizes(ns: seq<Node>, s: Schema)
    requires forall m | m in ns :: Admissible(m, s)
    ensures BoundSizes(BindNodes(ns, s)) == SizeOfAll(ns)
  {
    hide Admissible, BindNode, SizeOf, BoundSize;
    if ns != [] {
      BindKeepsSize(ns[0], s);
      BindKeepsSizes(ns[1..], s);
      assert BindNodes(ns, s)[1..] == BindNodes(ns[1..], s);
    }
  }

  lemma {:induction false} InsertKeepsSizes(b: Bound, bs: seq<Bound>)
    ensures BoundSizes(InsertBy(Canon, b, bs)) == Beside(BoundSize(b), BoundSizes(bs))
  {
    hide BoundSize, Canon, Leq;
    var r := InsertBy(Canon, b, bs);
    if r == [b] + bs {
      assert r[1..] == bs;
    } else {
      var rest := InsertBy(Canon, b, bs[1..]);
      InsertKeepsSizes(b, bs[1..]);
      assert r == [bs[0]] + rest && r[1..] == rest;
    }
  }

  lemma {:induction false} SortKeepsSizes(bs: seq<Bound>)
    ensures BoundSizes(SortBy(Canon, bs)) == BoundSizes(bs)
  {
    hide BoundSize, Canon, InsertBy;
    if bs != [] {
      SortKeepsSizes(bs[1..]);
      InsertKeepsSizes(bs[0], SortBy(Canon, bs[1..]));
    }
  }

  lemma {:induction false} NormalKeepsSize(b: Bound)
    ensures BoundSize(Normal(b)) == BoundSize(b)
  {
    hide SortBy, Canon;
    match b
    case Nil =>
    case BoundAnd(ns) => NormalKeepsSizes(ns); SortKeepsSizes(NormalAll(ns)); SortKeepsLength(NormalAll(ns));
    case BoundOr(ns) => NormalKeepsSizes(ns); SortKeepsSizes(NormalAll(ns)); SortKeepsLength(NormalAll(ns));
    case BoundComparison(_, _, _, _) =>
  }

  lemma SortKeepsLength(bs: seq<Bound>)
    ensures |SortBy(Canon, bs)| == |bs|
  {
  }

  lemma {:induction false} NormalKeepsSizes(ns: seq<Bound>)
    ensures BoundSizes(NormalAll(ns)) == BoundSizes(ns)
  {
    hide BoundSize, Normal;
    if ns != [] {
      NormalKeepsSize(ns[0]);
      NormalKeepsSizes(ns[1..]);
      assert NormalAll(ns)[1..] == NormalAll(ns[1..]);
    }
  }

  // ----- binding the syntax tree of a bound tree -----

  /** A printed value of the field's kind coerces back to itself, unless the field enumerates
      texts and this is not one of them. */
  lemma TextCoercesBack(v: Value, f: Field)
    requires HasKind(v, f.kind)
    ensures Coerce(Text(v), f) == if f.accepted != [] && Text(v) !in f.accepted then Err else Ok(v)
  {
    match v
    case Str(_) =>
    case Int(i) => FormatIntParses(i);
    case Bool(b) => FormatBoolParses(b);
  }

  predicate AcceptedTexts(b: Bound) {
    match b
    case Nil => true
    case BoundAnd(ns) => forall m | m in ns :: AcceptedTexts(m)
    case BoundOr(ns) => forall m | m in ns :: AcceptedTexts(m)
    case BoundComparison(_, field, _, values) =>
      field.accepted != [] ==> forall v | v in values :: Text(v) in field.accepted
  }

  lemma LeafRebinds(b: Bound, s: Schema)
    requires b.BoundComparison? && Conforms(b, s)
    ensures Admissible(Unbind(b), s) <==> AcceptedTexts(b)
    ensures Admissible(Unbind(b), s) ==> BindNode(Unbind(b), s) == b
  {
    hide Text, Coerce;
    var f, args := s[b.selector], Keys(Text, b.values);
    forall i | 0 <= i < |args|
      ensures Coerce(args[i], f) == if f.accepted != [] && args[i] !in f.accepted then Err else Ok(b.values[i])
    {
      assert b.values[i] in b.values;
      TextCoercesBack(b.values[i], f);
    }
    assert forall i | 0 <= i < |args| :: args[i] in args;
    if AcceptedTexts(b) {
      forall a | a in args ensures Coerce(a, f).Ok? {
        var i :| 0 <= i < |args| && args[i] == a;
        assert b.values[i] in b.values;
      }
      assert CoerceAll(args, f) == b.values;
    } else {
      var v :| v in b.values && Text(v) !in f.accepted;
      var i :| 0 <= i < |b.values| && b.values[i] == v;
      assert args[i] == Text(v) && Coerce(args[i], f).Err?;
    }
  }

  lemma {:induction false} UnbindRebinds(b: Bound, s: Schema)
    requires Conforms(b, s)
    ensures Grouped(b)
    ensures Admissible(Unbind(b), s) <==> AcceptedTexts(b)
    ensures Admissible(Unbind(b), s) ==> BindNode(Unbind(b), s) == b
  {
    ConformsIsGrouped(b, s);
    match b
    case BoundAnd(ns) => UnbindAllRebinds(ns, s);
    case BoundOr(ns) => UnbindAllRebinds(ns, s);
    case BoundComparison(_, _, _, _) => LeafRebinds(b, s);
  }

  lemma {:induction false} UnbindAllRebinds(ns: seq<Bound>, s: Schema)
    requires forall m | m in ns :: Conforms(m, s) && Grouped(m)
    ensures (forall n | n in UnbindAll(ns) :: Admissible(n, s)) <==> (forall m | m in ns :: AcceptedTexts(m))
    ensures (forall n | n in UnbindAll(ns) :: Admissible(n, s)) ==> BindNodes(UnbindAll(ns), s) == ns
  {
    hide Admissible, AcceptedTexts, Conforms, Grouped, Unbind, BindNode;
    var nodes := UnbindAll(ns);
    forall i | 0 <= i < |ns|
      ensures Admissible(nodes[i], s) <==> AcceptedTexts(ns[i])
      ensures Admissible(nodes[i], s) ==> BindNode(nodes[i], s) == ns[i]
    {
      assert ns[i] in ns;
      UnbindRebinds(ns[i], s);
    }
    assert forall i | 0 <= i < |ns| :: nodes[i] in nodes && ns[i] in ns;
    if forall n | n in nodes :: Admissible(n, s) {
      assert BindNodes(nodes, s) == ns;
    }
  }

  lemma {:induction false} ReadsBackParts(b: Bound)
    ensures ReadsBack(b) <==> AllSymbols(b, PlainSafe) && AcceptedTexts(b)
  {
    match b
    case Nil =>
    case BoundAnd(ns) =>
      forall m | m in ns ensures ReadsBack(m) <==> AllSymbols(m, PlainSafe) && AcceptedTexts(m) { ReadsBackParts(m); }
    case BoundOr(ns) =>
      forall m | m in ns ensures ReadsBack(m) <==> AllSymbols(m, PlainSafe) && AcceptedTexts(m) { ReadsBackParts(m); }
    case BoundComparison(_, _, op, _) =>
      OpSymbolIsPlain(op);
  }

  /** Every filter with the shape of an accepted one, within the limits, is accepted from some
      text; a field that enumerates texts has to list the printed values. */
  lemma {:induction false} EveryFilterHasText(b: Bound, s: Schema, lim: Limits)
    requires Conforms(b, s) && AcceptedTexts(b)
    requires Within(BoundSize(b).height, lim.maxDepth) && Within(BoundSize(b).ors, lim.maxDisjunctions)
    requires Within(BoundSize(b).leaves, lim.maxComparisons)
    ensures Grouped(b) && BindText(QuotedText(b), s, lim) == Ok(b)
  {
    hide ParseText, QuotedText, Conforms, Admissible, BindNode, Unbind, BoundSize, SizeOf, AcceptedTexts, Grouped;
    UnbindRebinds(b, s);
    QuotedTextParses(b);
    BindKeepsSize(Unbind(b), s);
  }

  // ----- the main result -----

  lemma {:induction false} ReadsBackRoundTrips(b: Bound, s: Schema, lim: Limits, n: Node)
    requires Conforms(b, s) && Admissible(n, s) && BindNode(n, s) == b && WithinLimits(n, lim)
    requires ReadsBack(b)
    ensures BindText(Canon(b), s, lim) == Ok(Normal(b))
  {
    hide ParseText, Print, Normal, Canon, Conforms, Admissible, BindNode, ReadsBack, Unbind, BoundSize, SizeOf;
    hide AllSymbols, AcceptedTexts;
    var nb := Normal(b);
    NormalConforms(b, s);
    NormalKeepsReadsBack(b);
    ReadsBackParts(nb);
    CanonPrintsNormal(b);
    UnbindRebinds(nb, s);
    SafePrintParses(nb);
    BindKeepsSize(n, s);
    NormalKeepsSize(b);
    BindKeepsSize(Unbind(nb), s);
  }

  lemma {:induction false} RoundTripsReadsBack(b: Bound, s: Schema, lim: Limits)
    requires Conforms(b, s)
    requires BindText(Canon(b), s, lim) == Ok(Normal(b))
    ensures ReadsBack(b)
  {
    hide ParseText, Print, Normal, Canon, Conforms, Admissible, BindNode, ReadsBack, Unbind, AllSymbols, AcceptedTexts;
    var nb := Normal(b);
    var n := ParseText(Canon(b)).value;
    NormalConforms(b, s);
    CanonPrintsNormal(b);
    UnbindRebinds(nb, s);
    ReturnsOnlyIfSafe(nb, n, s);
    SafePrintParses(nb);
    ReadsBackParts(nb);
    NormalKeepsReadsBack(b);
  }

  /** For every accepted filter whose texts read back, binding its canonical form under the
      same schema and limits succeeds and returns the filter with operands and values sorted
      at every level. By `NormalKeepsCanon` the canonical form of that is the same string. */
  lemma {:induction false} CanonicalRoundTrips(expr: string, s: Schema, lim: Limits, b: Bound)
    requires BindText(expr, s, lim) == Ok(b)
    requires ReadsBack(b)
    ensures BindText(Canon(b), s, lim) == Ok(Normal(b))
  {
    hide ParseText, Normal, Canon, Conforms, Admissible, BindNode, ReadsBack, WithinLimits;
    AcceptedConforms(expr, s, lim);
    ReadsBackRoundTrips(b, s, lim, ParseText(expr).value);
  }

  /** The condition is exact: for every accepted filter the canonical form comes back as the
      sorted filter if and only if its selectors and values read back. */
  lemma {:induction false} CanonicalRoundTripsIff(expr: string, s: Schema, lim: Limits, b: Bound)
    requires BindText(expr, s, lim) == Ok(b)
    ensures BindText(Canon(b), s, lim) == Ok(Normal(b)) <==> ReadsBack(b)
  {
    hide ParseText, Normal, Canon, Conforms, Admissible, BindNode, ReadsBack, WithinLimits;
    AcceptedConforms(expr, s, lim);
    if ReadsBack(b) {
      CanonicalRoundTrips(expr, s, lim, b);
    }
    if BindText(Canon(b), s, lim) == Ok(Normal(b)) {
      RoundTripsReadsBack(b, s, lim);
    }
  }
}
