/** Translation to a query document (rsql/mongox/mongox.go), what the document selects, and
    the two end-to-end results: translation keeps the meaning of the expression, and equal
    canonical strings select the same records. */
module Mongo {
  import opened Results
  import opened Ordering
  import opened Syntax
  import opened Parsing
  import opened Schemas
  import opened Canonicals
  import opened Echoes
  import opened Injectivity
  import opened Trees

  /** A query document. A column holds a bare value for equality or one operator. */
  datatype Filter =
    | AndDoc(parts: seq<Filter>)
    | OrDoc(parts: seq<Filter>)
    | ColumnDoc(column: string, test: Test)

  datatype Test =
    | Equal(v: Value)
    | Ne(v: Value)
    | Gt(v: Value)
    | Gte(v: Value)
    | Lt(v: Value)
    | Lte(v: Value)
    | In(vs: seq<Value>)
    | Nin(vs: seq<Value>)

  // ----- translation -----

  function TestOf(op: Operator, values: seq<Value>): Test
    requires op.TakesMany() || values != []
  {
    match op
    case OpEq => Equal(values[0])
    case OpNeq => Ne(values[0])
    case OpGt => Gt(values[0])
    case OpGe => Gte(values[0])
    case OpLt => Lt(values[0])
    case OpLe => Lte(values[0])
    case OpIn => In(values)
    case OpNotIn => Nin(values)
  }

  /** Every comparison that reads its first value has one. */
  predicate Indexable(b: Bound) {
    match b
    case Nil => true
    case BoundAnd(ns) => forall m | m in ns :: Indexable(m)
    case BoundOr(ns) => forall m | m in ns :: Indexable(m)
    case BoundComparison(_, _, op, values) => op.TakesMany() || values != []
  }

  function Translated(b: Bound): Result<Filter>
    requires Indexable(b)
  {
    match b
    case Nil => Err
    case BoundAnd(ns) =>
      (match TranslatedAll(ns)
       case Err => Err
       case Ok(parts) => Ok(AndDoc(parts)))
    case BoundOr(ns) =>
      (match TranslatedAll(ns)
       case Err => Err
       case Ok(parts) => Ok(OrDoc(parts)))
    case BoundComparison(_, field, op, values) => Ok(ColumnDoc(field.column, TestOf(op, values)))
  }

  function TranslatedAll(ns: seq<Bound>): (r: Result<seq<Filter>>)
    requires forall m | m in ns :: Indexable(m)
    ensures r.Ok? <==> forall i | 0 <= i < |ns| :: Translated(ns[i]).Ok?
    ensures r.Ok? ==> |r.value| == |ns| && forall i | 0 <= i < |ns| :: Translated(ns[i]) == Ok(r.value[i])
  {
    if ns == [] then Ok([])
    else
      var first, rest := Translated(ns[0]), TranslatedAll(ns[1..]);
      if first.Err? || rest.Err? then Err else Ok([first.value] + rest.value)
  }

  /** A nil somewhere in the tree. */
  predicate HasNil(b: Bound) {
    match b
    case Nil => true
    case BoundAnd(ns) => exists m | m in ns :: HasNil(m)
    case BoundOr(ns) => exists m | m in ns :: HasNil(m)
    case BoundComparison(_, _, _, _) => false
  }

  /** Nil, and only nil, cannot be translated. */
  lemma {:induction false} NilIsUntranslatable(b: Bound)
    requires Indexable(b)
    ensures Translated(b).Err? <==> HasNil(b)
  {
    match b
    case Nil =>
    case BoundAnd(ns) => NilsAreUntranslatable(ns);
    case BoundOr(ns) => NilsAreUntranslatable(ns);
    case BoundComparison(_, _, _, _) =>
  }

  lemma {:induction false} NilsAreUntranslatable(ns: seq<Bound>)
    requires forall m | m in ns :: Indexable(m)
    ensures TranslatedAll(ns).Err? <==> exists m | m in ns :: HasNil(m)
  {
    hide Indexable, Translated, HasNil;
    forall i | 0 <= i < |ns| ensures Translated(ns[i]).Err? <==> HasNil(ns[i]) {
      NilIsUntranslatable(ns[i]);
    }
    assert forall i | 0 <= i < |ns| :: ns[i] in ns;
  }

  method ToFilter(b: Bound) returns (r: Result<Filter>)
    requires Indexable(b)
    ensures r == Translated(b)
    ensures r.Err? <==> HasNil(b)
    decreases b
  {
    NilIsUntranslatable(b);
    match b {
      case Nil =>
        return Err;
      case BoundAnd(ns) =>
        var parts := Each(ns);
        if parts.Err? {
          return Err;
        }
        return Ok(AndDoc(parts.value));
      case BoundOr(ns) =>
        var parts := Each(ns);
        if parts.Err? {
          return Err;
        }
        return Ok(OrDoc(parts.value));
      case BoundComparison(_, field, op, values) =>
        return Ok(ColumnDoc(field.column, TestOf(op, values)));
    }
  }

  method Each(ns: seq<Bound>) returns (r: Result<seq<Filter>>)
    requires forall m | m in ns :: Indexable(m)
    ensures r == TranslatedAll(ns)
    decreases ns
  {
    hide Translated;
    var out: seq<Filter> := [];
    for i := 0 to |ns|
      invariant |out| == i && forall k | 0 <= k < i :: Translated(ns[k]) == Ok(out[k])
    {
      var m := ToFilter(ns[i]);
      if m.Err? {
        return Err;
      }
      out := out + [m.value];
    }
    assert TranslatedAll(ns).Ok? && out == TranslatedAll(ns).value;
    return Ok(out);
  }

  lemma {:induction false} ConformingTranslates(b: Bound, s: Schema)
    requires Conforms(b, s)
    ensures Indexable(b) && Translated(b).Ok?
  {
    match b
    case BoundAnd(ns) => ConformingAllTranslate(ns, s);
    case BoundOr(ns) => ConformingAllTranslate(ns, s);
    case BoundComparison(_, _, _, _) =>
  }

  lemma {:induction false} ConformingAllTranslate(ns: seq<Bound>, s: Schema)
    requires forall m | m in ns :: Conforms(m, s)
    ensures forall m | m in ns :: Indexable(m)
    ensures TranslatedAll(ns).Ok?
  {
    hide Conforms, Indexable, Translated;
    forall m | m in ns ensures Indexable(m) && Translated(m).Ok? {
      ConformingTranslates(m, s);
    }
    assert forall i | 0 <= i < |ns| :: ns[i] in ns;
  }

  /** Whatever `Bind` accepts, `ToFilter` translates: it never fails and never reads a value
      that is not there. */
  lemma AcceptedTranslates(expr: string, s: Schema, lim: Limits)
    requires BindText(expr, s, lim).Ok?
    ensures var b := BindText(expr, s, lim).value; Indexable(b) && Translated(b).Ok?
  {
    hide BindText, Conforms, Indexable, Translated;
    AcceptedConforms(expr, s, lim);
    ConformingTranslates(BindText(expr, s, lim).value, s);
  }

  // ----- what a document selects -----

  /** A stored field: a scalar or an array. A field the record lacks is not in the map. */
  datatype Content = One(v: Value) | Many(vs: seq<Value>)

  type Record = map<string, Content>

  /** The order within one type; values of different types are not ordered. */
  predicate Less(a: Value, b: Value) {
    match (a, b)
    case (Int(i), Int(j)) => i < j
    case (Str(s), Str(t)) => s != t && Leq(s, t)
    case (Bool(p), Bool(q)) => !p && q
    case _ => false
  }

  /** The server's rule for scalars and arrays: equality against an array is "contains", a
      range test passes if some element does, and the negated tests are the complements. */
  predicate EqualsField(rec: Record, column: string, v: Value) {
    column in rec && match rec[column]
                     case One(x) => x == v
                     case Many(xs) => v in xs
  }

  predicate Ranges(rec: Record, column: string, passes: Value -> bool) {
    column in rec && match rec[column]
                     case One(x) => passes(x)
                     case Many(xs) => exists x | x in xs :: passes(x)
  }

  predicate Passes(rec: Record, column: string, test: Test) {
    match test
    case Equal(v) => EqualsField(rec, column, v)
    case Ne(v) => !EqualsField(rec, column, v)
    case Gt(v) => Ranges(rec, column, x => Less(v, x))
    case Gte(v) => Ranges(rec, column, x => Less(v, x) || x == v)
    case Lt(v) => Ranges(rec, column, x => Less(x, v))
    case Lte(v) => Ranges(rec, column, x => Less(x, v) || x == v)
    case In(vs) => exists v | v in vs :: EqualsField(rec, column, v)
    case Nin(vs) => !exists v | v in vs :: EqualsField(rec, column, v)
  }

  predicate Selects(f: Filter, rec: Record) {
    match f
    case AndDoc(parts) => forall p | p in parts :: Selects(p, rec)
    case OrDoc(parts) => exists p | p in parts :: Selects(p, rec)
    case ColumnDoc(column, test) => Passes(rec, column, test)
  }

  // ----- what an expression means -----

  /** The values a record stores under a column, however it stores them. */
  function Elements(rec: Record, column: string): set<Value> {
    if column !in rec then {}
    else
      match rec[column]
      case One(x) => {x}
      case Many(xs) => set x | x in xs
  }

  /** A comparison, on the stored values: the positive operators ask for one that fits, the
      negative ones for none that does. */
  predicate Holds(op: Operator, values: seq<Value>, stored: set<Value>) {
    match op
    case OpEq => exists v | v in values :: v in stored
    case OpNeq => forall v | v in values :: v !in stored
    case OpGt => exists v, x | v in values && x in stored :: Less(v, x)
    case OpGe => exists v, x | v in values && x in stored :: Less(v, x) || v == x
    case OpLt => exists v, x | v in values && x in stored :: Less(x, v)
    case OpLe => exists v, x | v in values && x in stored :: Less(x, v) || v == x
    case OpIn => exists v | v in values :: v in stored
    case OpNotIn => forall v | v in values :: v !in stored
  }

  /** The meaning of the syntax tree itself: ';' is conjunction, ',' is disjunction. */
  predicate Means(n: Node, s: Schema, rec: Record)
    requires Admissible(n, s)
  {
    match n
    case And(ns) => forall m | m in ns :: Means(m, s, rec)
    case Or(ns) => exists m | m in ns :: Means(m, s, rec)
    case Comparison(selector, op, args) =>
      var column := if s[selector].column == "" then selector else s[selector].column;
      Holds(op, CoerceAll(args, s[selector]), Elements(rec, column))
  }

  predicate LeafHolds(b: Bound, rec: Record)
    requires b.BoundComparison?
  {
    Holds(b.op, b.values, Elements(rec, b.field.column))
  }

  /** The meaning of a bound tree. */
  predicate Eval(b: Bound, rec: Record) {
    match b
    case Nil => true
    case BoundAnd(ns) => forall m | m in ns :: Eval(m, rec)
    case BoundOr(ns) => exists m | m in ns :: Eval(m, rec)
    case BoundComparison(_, _, _, _) => LeafHolds(b, rec)
  }

  lemma EqualsIsElement(rec: Record, column: string, v: Value)
    ensures EqualsField(rec, column, v) <==> v in Elements(rec, column)
  {
  }

  lemma RangesIsElement(rec: Record, column: string, passes: Value -> bool)
    ensures Ranges(rec, column, passes) <==> exists x | x in Elements(rec, column) :: passes(x)
  {
    if column in rec && rec[column].One? && passes(rec[column].v) {
      assert rec[column].v in Elements(rec, column);
    }
  }

  lemma TestHolds(op: Operator, values: seq<Value>, rec: Record, column: string)
    requires values != [] && (!op.TakesMany() ==> |values| == 1)
    ensures Passes(rec, column, TestOf(op, values)) <==> Holds(op, values, Elements(rec, column))
  {
    hide EqualsField, Ranges, Elements, Less;
    var v := values[0];
    forall w ensures EqualsField(rec, column, w) <==> w in Elements(rec, column) {
      EqualsIsElement(rec, column, w);
    }
    if !op.TakesMany() {
      assert values == [v];
      assert v in values && forall w | w in values :: w == v;
      var stored := Elements(rec, column);
      match op
      case OpGt =>
        RangesIsElement(rec, column, x => Less(v, x));
        assert Holds(op, values, stored) <==> exists x | x in stored :: Less(v, x);
      case OpGe =>
        RangesIsElement(rec, column, x => Less(v, x) || x == v);
        assert Holds(op, values, stored) <==> exists x | x in stored :: Less(v, x) || x == v;
      case OpLt =>
        RangesIsElement(rec, column, x => Less(x, v));
        assert Holds(op, values, stored) <==> exists x | x in stored :: Less(x, v);
      case OpLe =>
        RangesIsElement(rec, column, x => Less(x, v) || x == v);
        assert Holds(op, values, stored) <==> exists x | x in stored :: Less(x, v) || x == v;
      case _ =>
    }
  }

  /** The document selects what the bound tree means. */
  lemma {:induction false} TranslationEvaluates(b: Bound, s: Schema, rec: Record)
    requires Conforms(b, s)
    ensures Indexable(b) && Translated(b).Ok?
    ensures Selects(Translated(b).value, rec) <==> Eval(b, rec)
  {
    hide Passes, Holds, TestOf;
    ConformingTranslates(b, s);
    match b
    case BoundAnd(ns) => TranslationEvaluatesAll(ns, s, rec);
    case BoundOr(ns) => TranslationEvaluatesAll(ns, s, rec);
    case BoundComparison(_, field, op, values) => TestHolds(op, values, rec, field.column);
  }

  lemma {:induction false} TranslationEvaluatesAll(ns: seq<Bound>, s: Schema, rec: Record)
    requires forall m | m in ns :: Conforms(m, s)
    ensures forall m | m in ns :: Indexable(m)
    ensures var parts := TranslatedAll(ns);
      && parts.Ok?
      && ((forall p | p in parts.value :: Selects(p, rec)) <==> (forall m | m in ns :: Eval(m, rec)))
      && ((exists p | p in parts.value :: Selects(p, rec)) <==> (exists m | m in ns :: Eval(m, rec)))
  {
    hide Conforms, Indexable, Translated, Selects, Eval;
    ConformingAllTranslate(ns, s);
    var parts := TranslatedAll(ns).value;
    forall i | 0 <= i < |ns| ensures Selects(parts[i], rec) <==> Eval(ns[i], rec) {
      assert ns[i] in ns;
      TranslationEvaluates(ns[i], s, rec);
    }
    Pointwise(parts, ns, rec);
  }

  lemma Pointwise(parts: seq<Filter>, ns: seq<Bound>, rec: Record)
    requires |parts| == |ns| && forall i | 0 <= i < |ns| :: Selects(parts[i], rec) <==> Eval(ns[i], rec)
    ensures (forall p | p in parts :: Selects(p, rec)) <==> (forall m | m in ns :: Eval(m, rec))
    ensures (exists p | p in parts :: Selects(p, rec)) <==> (exists m | m in ns :: Eval(m, rec))
  {
    hide Selects, Eval;
    assert forall i | 0 <= i < |ns| :: parts[i] in parts && ns[i] in ns;
  }

  /** Binding keeps the meaning of the syntax tree. */
  lemma {:induction false} BindingMeans(n: Node, s: Schema, rec: Record)
    requires Admissible(n, s)
    ensures Eval(BindNode(n, s), rec) <==> Means(n, s, rec)
  {
    hide Holds;
    match n
    case And(ns) => BindingMeansAll(ns, s, rec);
    case Or(ns) => BindingMeansAll(ns, s, rec);
    case Comparison(_, _, _) =>
  }

  lemma {:induction false} BindingMeansAll(ns: seq<Node>, s: Schema, rec: Record)
    requires forall m | m in ns :: Admissible(m, s)
    ensures (forall m | m in BindNodes(ns, s) :: Eval(m, rec)) <==> (forall m | m in ns :: Means(m, s, rec))
    ensures (exists m | m in BindNodes(ns, s) :: Eval(m, rec)) <==> (exists m | m in ns :: Means(m, s, rec))
  {
    hide Admissible, Eval, Means, BindNode;
    var bs := BindNodes(ns, s);
    forall i | 0 <= i < |ns| ensures Eval(bs[i], rec) <==> Means(ns[i], s, rec) {
      assert ns[i] in ns;
      BindingMeans(ns[i], s, rec);
    }
    assert forall i | 0 <= i < |ns| :: bs[i] in bs && ns[i] in ns;
  }

  /** Translation preserves meaning, from text to document: for every accepted expression and
      every record, the document selects the record exactly when the expression holds of it. */
  lemma {:induction false} TranslationPreservesMeaning(expr: string, s: Schema, lim: Limits, rec: Record)
    requires BindText(expr, s, lim).Ok?
    ensures var n, b := ParseText(expr).value, BindText(expr, s, lim).value;
      && Admissible(n, s) && Indexable(b) && Translated(b).Ok?
      && (Selects(Translated(b).value, rec) <==> Means(n, s, rec))
  {
    hide ParseText, Admissible, BindNode, Conforms, Indexable, Translated, Selects, Eval, Means, WithinLimits;
    AcceptedConforms(expr, s, lim);
    var n := ParseText(expr).value;
    BindingMeans(n, s, rec);
    TranslationEvaluates(BindNode(n, s), s, rec);
  }

  // ----- the canonical string as a cache key -----

  lemma {:induction false} SameEvaluates(b: Bound, c: Bound, rec: Record)
    requires Same(b, c)
    ensures Eval(b, rec) <==> Eval(c, rec)
    decreases b
  {
    match b
    case Nil =>
    case BoundAnd(ns) => SameAllEvaluate(ns, c.nodes, rec);
    case BoundOr(ns) => SameAllEvaluate(ns, c.nodes, rec);
    case BoundComparison(_, field, op, values) =>
      SameContentsHold(op, values, c.values, Elements(rec, field.column));
  }

  lemma SameContentsHold(op: Operator, vs: seq<Value>, ws: seq<Value>, stored: set<Value>)
    requires multiset(vs) == multiset(ws)
    ensures Holds(op, vs, stored) <==> Holds(op, ws, stored)
  {
    hide Less;
    forall v ensures v in vs <==> v in ws {
      assert v in vs <==> v in multiset(vs);
      assert v in ws <==> v in multiset(ws);
    }
  }

  lemma {:induction false} SameAllEvaluate(bs: seq<Bound>, cs: seq<Bound>, rec: Record)
    requires SameAll(bs, cs)
    ensures (forall b | b in bs :: Eval(b, rec)) <==> (forall c | c in cs :: Eval(c, rec))
    ensures (exists b | b in bs :: Eval(b, rec)) <==> (exists c | c in cs :: Eval(c, rec))
    decreases bs
  {
    hide Eval, Same;
    if bs != [] {
      var j :| 0 <= j < |cs| && Same(bs[0], cs[j]) && SameAll(bs[1..], Without(cs, j));
      SameEvaluates(bs[0], cs[j], rec);
      SameAllEvaluate(bs[1..], Without(cs, j), rec);
      assert forall b :: b in bs <==> b == bs[0] || b in bs[1..];
      WithoutMembers(cs, j);
    }
  }

  lemma WithoutMembers(cs: seq<Bound>, j: nat)
    requires j < |cs|
    ensures forall c :: c in cs <==> c == cs[j] || c in Without(cs, j)
  {
    assert cs == cs[..j] + [cs[j]] + cs[j + 1..];
  }

  /** Sharing a cache entry under the canonical string is safe: two filters accepted under one
      schema with one canonical string select the same records, if the keys they use can be
      told apart. */
  lemma {:induction false} EqualKeysSelectAlike(e: string, f: string, s: Schema, keys: set<string>,
                                                lim: Limits, lim': Limits, rec: Record)
    requires BindText(e, s, lim).Ok? && BindText(f, s, lim').Ok?
    requires Uses(BindText(e, s, lim).value, keys) && Uses(BindText(f, s, lim').value, keys) && PlainKeys(keys)
    requires Canon(BindText(e, s, lim).value) == Canon(BindText(f, s, lim').value)
    ensures var b, c := BindText(e, s, lim).value, BindText(f, s, lim').value;
      && Indexable(b) && Indexable(c) && Translated(b).Ok? && Translated(c).Ok?
      && (Selects(Translated(b).value, rec) <==> Selects(Translated(c).value, rec))
  {
    hide BindText, Conforms, Indexable, Translated, Selects, Eval, Canon, Same, PlainKeys, Uses, Normal;
    var b, c := BindText(e, s, lim).value, BindText(f, s, lim').value;
    AcceptedConforms(e, s, lim);
    AcceptedConforms(f, s, lim');
    EqualCanonIffSame(b, c, s, keys);
    SameEvaluates(b, c, rec);
    TranslationEvaluates(b, s, rec);
    TranslationEvaluates(c, s, rec);
  }

  /** The keys of the schema will always do for `keys`. */
  lemma {:induction false} AcceptedUsesSchemaKeys(b: Bound, s: Schema)
    requires Conforms(b, s)
    ensures Uses(b, s.Keys)
  {
    match b
    case BoundAnd(ns) => forall m | m in ns ensures Uses(m, s.Keys) { AcceptedUsesSchemaKeys(m, s); }
    case BoundOr(ns) => forall m | m in ns ensures Uses(m, s.Keys) { AcceptedUsesSchemaKeys(m, s); }
    case BoundComparison(_, _, _, _) =>
  }

  // ----- rewriting and evaluation -----

  /** On the trees `Bind` makes, the three-valued meaning used for rewriting is evaluation. */
  lemma {:induction false} MeaningIsEval(b: Bound, rec: Record, holds: Bound -> bool)
    requires Grouped(b)
    requires forall l: Bound | l.BoundComparison? :: holds(l) <==> LeafHolds(l, rec)
    ensures Meaning(b, holds) == Known(Eval(b, rec))
  {
    hide LeafHolds;
    match b
    case BoundAnd(ns) => GroupMeaningIsEval(ns, false, rec, holds);
    case BoundOr(ns) => GroupMeaningIsEval(ns, true, rec, holds);
    case BoundComparison(_, _, _, _) =>
  }

  lemma {:induction false} GroupMeaningIsEval(ns: seq<Bound>, or: bool, rec: Record, holds: Bound -> bool)
    requires ns != [] && forall m | m in ns :: Grouped(m)
    requires forall l: Bound | l.BoundComparison? :: holds(l) <==> LeafHolds(l, rec)
    ensures GroupMeaning(ns, or, holds) ==
      Known(if or then exists m | m in ns :: Eval(m, rec) else forall m | m in ns :: Eval(m, rec))
  {
    hide Grouped, Meaning, LeafHolds, Eval;
    MeaningIsEval(ns[0], rec, holds);
    assert forall m :: m in ns <==> m == ns[0] || m in ns[1..];
    if |ns| > 1 {
      GroupMeaningIsEval(ns[1..], or, rec, holds);
    }
  }

  // ----- filters that were rewritten -----

  /** `fn` makes filters of the schema out of comparisons, or drops them. */
  ghost predicate StaysInSchema(fn: Bound -> Bound, s: Schema) {
    forall l: Bound | l.BoundComparison? && Conforms(l, s) :: fn(l).Nil? || Conforms(fn(l), s)
  }

  lemma {:induction false} FlattenConforms(nodes: seq<Bound>, or: bool, s: Schema)
    requires forall n | n in nodes :: n.Nil? || Conforms(n, s)
    ensures forall n | n in Flatten(nodes, or) :: Conforms(n, s)
  {
    if nodes != [] {
      FlattenConforms(nodes[1..], or, s);
      assert forall n :: n in Flatten(nodes, or) <==> n in Parts(nodes[0], or) || n in Flatten(nodes[1..], or);
      assert nodes[0].Nil? || Conforms(nodes[0], s);
    }
  }

  /** Rewriting stays in the schema, also where a sole survivor is rewritten again. */
  lemma {:induction false} RewrittenConforms(b: Bound, fn: Bound -> Bound, s: Schema)
    requires Conforms(b, s) && OnComparisons(fn) && StaysInSchema(fn, s)
    ensures Rewritten(b, fn).Nil? || Conforms(Rewritten(b, fn), s)
  {
    hide OnComparisons, Combined;
    match b
    case BoundAnd(ns) => RewrittenAllConform(ns, fn, s, false);
    case BoundOr(ns) => RewrittenAllConform(ns, fn, s, true);
    case BoundComparison(_, _, _, _) =>
  }

  lemma {:induction false} RewrittenAllConform(ns: seq<Bound>, fn: Bound -> Bound, s: Schema, or: bool)
    requires (forall m | m in ns :: Conforms(m, s)) && OnComparisons(fn) && StaysInSchema(fn, s)
    ensures forall n | n in RewrittenAll(ns, fn) :: n.Nil? || Conforms(n, s)
    ensures var c := Combined(RewrittenAll(ns, fn), or);
      (c.Nil? || Conforms(c, s)) && (fn(c).Nil? || Conforms(fn(c), s))
  {
    hide OnComparisons, Rewritten, Flatten;
    if ns != [] {
      RewrittenConforms(ns[0], fn, s);
      RewrittenAllConform(ns[1..], fn, s, or);
    }
    FlattenConforms(RewrittenAll(ns, fn), or, s);
    KeepsOthers(fn, Combined(RewrittenAll(ns, fn), or));
  }

  /** Rewriting an accepted filter gives nil or a filter of the same shape guarantees, which
      still translates, and whose document selects the records that the original holds of when
      each comparison stands for what the function makes of it. */
  lemma {:induction false} RewrittenSelects(b: Bound, fn: Bound -> Bound, s: Schema, rec: Record)
    requires Conforms(b, s) && OnComparisons(fn) && Settles(b, fn) && StaysInSchema(fn, s)
    ensures var t, holds := Rewritten(b, fn), (l: Bound) => l.BoundComparison? && LeafHolds(l, rec);
      if t.Nil? then MeaningUnder(b, fn, holds) == Absent
      else
        && Conforms(t, s) && Indexable(t) && Translated(t).Ok?
        && MeaningUnder(b, fn, holds) == Known(Selects(Translated(t).value, rec))
  {
    hide Conforms, Settles, Rewritten, Translated, Indexable, Selects, Eval, LeafHolds, OnComparisons, StaysInSchema;
    var t, holds := Rewritten(b, fn), (l: Bound) => l.BoundComparison? && LeafHolds(l, rec);
    RewrittenConforms(b, fn, s);
    RewrittenMeans(b, fn, holds);
    if !t.Nil? {
      ConformsIsGrouped(t, s);
      TranslationEvaluates(t, s, rec);
      MeaningIsEval(t, rec, holds);
    }
  }
}
