/** Binding a syntax tree to a schema under limits (rsql/schema.go). */
module Schemas {
  import opened Results
  import opened Numbers
  import opened Syntax
  import opened Parsing
  import opened Grammar
  import opened Lexing

  datatype Kind = KindString | KindInt | KindBool

  datatype Field = Field(column: string, kind: Kind, ops: seq<Operator>, accepted: seq<string>)

  type Schema = map<string, Field>

  /** Zero, or anything below, means unbounded. */
  datatype Limits = Limits(maxDepth: int, maxDisjunctions: int, maxComparisons: int)

  datatype Value = Str(s: string) | Int(i: int) | Bool(b: bool)

  datatype Bound =
    | Nil
    | BoundAnd(nodes: seq<Bound>)
    | BoundOr(nodes: seq<Bound>)
    | BoundComparison(selector: string, field: Field, op: Operator, values: seq<Value>)

  function KindOps(k: Kind): seq<Operator> {
    match k
    case KindBool => [OpEq, OpNeq]
    case KindString => [OpEq, OpNeq, OpIn, OpNotIn]
    case KindInt => [OpEq, OpNeq, OpGt, OpGe, OpLt, OpLe, OpIn, OpNotIn]
  }

  /** A field's own operator list replaces its kind's. */
  function Allowed(f: Field): seq<Operator> {
    if f.ops == [] then KindOps(f.kind) else f.ops
  }

  /** The field of a selector, with the column defaulting to the selector. */
  function FieldOf(selector: string, s: Schema): Field
    requires selector in s
  {
    if s[selector].column == "" then s[selector].(column := selector) else s[selector]
  }

  function Coerce(raw: string, f: Field): Result<Value> {
    if f.accepted != [] && raw !in f.accepted then Err
    else
      match f.kind
      case KindString => Ok(Str(raw))
      case KindInt =>
        (match ParseInt(raw)
         case Err => Err
         case Ok(i) => Ok(Int(i)))
      case KindBool =>
        (match ParseBool(raw)
         case Err => Err
         case Ok(b) => Ok(Bool(b)))
  }

  // ----- which trees are accepted, and what they become -----

  predicate LeafAdmissible(selector: string, op: Operator, args: seq<string>, s: Schema) {
    && selector in s
    && op in Allowed(s[selector])
    && (op.TakesMany() || |args| == 1)
    && forall a | a in args :: Coerce(a, s[selector]).Ok?
  }

  predicate Admissible(n: Node, s: Schema) {
    match n
    case And(ns) => forall m | m in ns :: Admissible(m, s)
    case Or(ns) => forall m | m in ns :: Admissible(m, s)
    case Comparison(selector, op, args) => LeafAdmissible(selector, op, args, s)
  }

  function CoerceAll(args: seq<string>, f: Field): (r: seq<Value>)
    requires forall a | a in args :: Coerce(a, f).Ok?
    ensures |r| == |args|
    ensures forall i | 0 <= i < |args| :: Ok(r[i]) == Coerce(args[i], f)
  {
    if args == [] then [] else [Coerce(args[0], f).value] + CoerceAll(args[1..], f)
  }

  function BindNode(n: Node, s: Schema): Bound
    requires Admissible(n, s)
  {
    match n
    case And(ns) => BoundAnd(BindNodes(ns, s))
    case Or(ns) => BoundOr(BindNodes(ns, s))
    case Comparison(selector, op, args) =>
      BoundComparison(selector, FieldOf(selector, s), op, CoerceAll(args, s[selector]))
  }

  function BindNodes(ns: seq<Node>, s: Schema): (r: seq<Bound>)
    requires forall m | m in ns :: Admissible(m, s)
    ensures |r| == |ns|
    ensures forall i | 0 <= i < |ns| :: r[i] == BindNode(ns[i], s)
  {
    if ns == [] then [] else [BindNode(ns[0], s)] + BindNodes(ns[1..], s)
  }

  /** The measures the limits bound: nesting depth, comparisons, and operands beyond the first
      summed over the OR groups and over the AND groups. */
  datatype Size = Size(height: nat, leaves: nat, ors: int, ands: int)

  function SizeOf(n: Node): (r: Size)
    ensures r.height >= 1
  {
    match n
    case And(ns) => var t := SizeOfAll(ns); t.(height := t.height + 1, ands := t.ands + |ns| - 1)
    case Or(ns) => var t := SizeOfAll(ns); t.(height := t.height + 1, ors := t.ors + |ns| - 1)
    case Comparison(_, _, _) => Size(1, 1, 0, 0)
  }

  function Beside(a: Size, b: Size): Size {
    Size(if a.height >= b.height then a.height else b.height, a.leaves + b.leaves, a.ors + b.ors, a.ands + b.ands)
  }

  function SizeOfAll(ns: seq<Node>): Size {
    if ns == [] then Size(0, 0, 0, 0) else Beside(SizeOf(ns[0]), SizeOfAll(ns[1..]))
  }

  predicate Within(measure: int, limit: int) {
    limit > 0 ==> measure <= limit
  }

  predicate WithinLimits(n: Node, lim: Limits) {
    && Within(SizeOf(n).height, lim.maxDepth)
    && Within(SizeOf(n).ors, lim.maxDisjunctions)
    && Within(SizeOf(n).leaves, lim.maxComparisons)
  }

  /** What `Bind` returns. */
  function BindText(expr: string, s: Schema, lim: Limits): Result<Bound> {
    match ParseText(expr)
    case Err => Err
    case Ok(n) => if Admissible(n, s) && WithinLimits(n, lim) then Ok(BindNode(n, s)) else Err
  }

  // ----- the binder -----

  class Binder {
    const schema: Schema
    const limits: Limits
    var comparisons: int
    var disjunctions: int

    constructor (s: Schema, lim: Limits)
      ensures schema == s && limits == lim && comparisons == 0 && disjunctions == 0
    {
      schema := s;
      limits := lim;
      comparisons := 0;
      disjunctions := 0;
    }

    /** Accepts exactly the admissible trees that fit below `depth`, and then the counters
        have grown by the tree's comparisons and disjunctions. */
    method Walk(n: Node, depth: nat) returns (r: Result<Bound>)
      modifies this
      ensures r.Ok? <==> Admissible(n, schema) && Within(depth + SizeOf(n).height - 1, limits.maxDepth)
      ensures r.Ok? ==> && r.value == BindNode(n, schema)
                        && comparisons == old(comparisons) + SizeOf(n).leaves
                        && disjunctions == old(disjunctions) + SizeOf(n).ors
      decreases n
    {
      if limits.maxDepth > 0 && depth > limits.maxDepth {
        return Err;
      }
      match n {
        case And(ns) =>
          var nodes := WalkAll(ns, depth);
          if nodes.Err? {
            return Err;
          }
          return Ok(BoundAnd(nodes.value));
        case Or(ns) =>
          disjunctions := disjunctions + |ns| - 1;
          var nodes := WalkAll(ns, depth);
          if nodes.Err? {
            return Err;
          }
          return Ok(BoundOr(nodes.value));
        case Comparison(selector, op, args) =>
          comparisons := comparisons + 1;
          r := BindComparison(selector, op, args);
      }
    }

    method WalkAll(ns: seq<Node>, depth: nat) returns (r: Result<seq<Bound>>)
      modifies this
      ensures r.Ok? <==> && (forall m | m in ns :: Admissible(m, schema))
                         && (ns != [] ==> Within(depth + SizeOfAll(ns).height, limits.maxDepth))
      ensures r.Ok? ==> && r.value == BindNodes(ns, schema)
                        && comparisons == old(comparisons) + SizeOfAll(ns).leaves
                        && disjunctions == old(disjunctions) + SizeOfAll(ns).ors
      decreases ns
    {
      hide SizeOf, BindNode, Admissible, SizeOfAll;
      EmptySize();
      var out: seq<Bound> := [];
      var i := 0;
      assert ns[..0] == [];
      while i < |ns|
        invariant 0 <= i <= |ns|
        invariant forall m | m in ns[..i] :: Admissible(m, schema)
        invariant i > 0 ==> Within(depth + SizeOfAll(ns[..i]).height, limits.maxDepth)
        invariant |out| == i && forall k | 0 <= k < i :: out[k] == BindNode(ns[k], schema)
        invariant comparisons == old(comparisons) + SizeOfAll(ns[..i]).leaves
        invariant disjunctions == old(disjunctions) + SizeOfAll(ns[..i]).ors
      {
        SizeOfPrefix(ns, i);
        HeightOfMember(ns, i);
        PrefixMembers(ns, i);
        var bn := Walk(ns[i], depth + 1);
        if bn.Err? {
          assert ns[i] in ns;
          return Err;
        }
        out := out + [bn.value];
        i := i + 1;
      }
      assert ns[..|ns|] == ns;
      return Ok(out);
    }

    method BindComparison(selector: string, op: Operator, args: seq<string>) returns (r: Result<Bound>)
      ensures r.Ok? <==> LeafAdmissible(selector, op, args, schema)
      ensures r.Ok? ==> r.value == BindNode(Comparison(selector, op, args), schema)
    {
      if selector !in schema {
        return Err;
      }
      var f := schema[selector];
      if f.column == "" {
        f := f.(column := selector);
      }
      var allowed := f.ops;
      if |allowed| == 0 {
        allowed := KindOps(f.kind);
      }
      if op !in allowed {
        return Err;
      }
      if !op.TakesMany() && |args| != 1 {
        return Err;
      }
      var values: seq<Value> := [];
      for i := 0 to |args|
        invariant |values| == i
        invariant forall k | 0 <= k < i :: Coerce(args[k], schema[selector]) == Ok(values[k])
      {
        var v := Coerce(args[i], f);
        if v.Err? {
          assert args[i] in args;
          return Err;
        }
        values := values + [v.value];
      }
      assert values == CoerceAll(args, schema[selector]);
      return Ok(BoundComparison(selector, f, op, values));
    }
  }

  lemma EmptySize()
    ensures SizeOfAll([]) == Size(0, 0, 0, 0)
  {
  }

  lemma PrefixMembers(ns: seq<Node>, i: nat)
    requires i < |ns|
    ensures forall m | m in ns[..i + 1] :: m in ns[..i] || m == ns[i]
  {
  }

  lemma {:induction false} SizeOfAppend(ns: seq<Node>, m: Node)
    ensures SizeOfAll(ns + [m]) == Beside(SizeOfAll(ns), SizeOf(m))
  {
    hide SizeOf;
    if ns == [] {
      assert ns + [m] == [m];
    } else {
      SizeOfAppend(ns[1..], m);
      assert (ns + [m])[0] == ns[0] && (ns + [m])[1..] == ns[1..] + [m];
    }
  }

  lemma SizeOfPrefix(ns: seq<Node>, i: nat)
    requires i < |ns|
    ensures SizeOfAll(ns[..i + 1]) == Beside(SizeOfAll(ns[..i]), SizeOf(ns[i]))
  {
    SizeOfAppend(ns[..i], ns[i]);
    assert ns[..i] + [ns[i]] == ns[..i + 1];
  }

  lemma {:induction false} HeightOfMember(ns: seq<Node>, i: nat)
    requires i < |ns|
    ensures SizeOf(ns[i]).height <= SizeOfAll(ns).height
  {
    if i > 0 {
      HeightOfMember(ns[1..], i - 1);
    }
  }

  /** `Bind` succeeds exactly when the text parses, every comparison fits the schema, and each
      measure is within its limit; the counters the binder kept are those measures. */
  method Bind(expr: string, s: Schema, lim: Limits) returns (r: Result<Bound>)
    ensures r == BindText(expr, s, lim)
    ensures r.Ok? <==> var n := ParseText(expr);
      n.Ok? && Admissible(n.value, s) && WithinLimits(n.value, lim)
  {
    var n := Parse(expr);
    if n.Err? {
      return Err;
    }
    var b := new Binder(s, lim);
    var out := b.Walk(n.value, 1);
    if out.Err? {
      return Err;
    }
    if lim.maxComparisons > 0 && b.comparisons > lim.maxComparisons {
      return Err;
    }
    if lim.maxDisjunctions > 0 && b.disjunctions > lim.maxDisjunctions {
      return Err;
    }
    return out;
  }

  // ----- properties of what is accepted -----

  /** Counting identity: each comparison beyond the first is one more operand of some group. */
  lemma {:induction false} LeavesCountOperands(n: Node)
    requires WellShaped(n)
    ensures SizeOf(n).leaves == 1 + SizeOf(n).ors + SizeOf(n).ands
  {
    match n
    case And(ns) => LeavesCountOperandsAll(ns);
    case Or(ns) => LeavesCountOperandsAll(ns);
    case Comparison(_, _, _) =>
  }

  lemma {:induction false} LeavesCountOperandsAll(ns: seq<Node>)
    requires forall m | m in ns :: WellShaped(m)
    ensures SizeOfAll(ns).leaves == |ns| + SizeOfAll(ns).ors + SizeOfAll(ns).ands
  {
    if ns != [] {
      LeavesCountOperands(ns[0]);
      LeavesCountOperandsAll(ns[1..]);
    }
  }

  predicate HasKind(v: Value, k: Kind) {
    match k
    case KindString => v.Str?
    case KindInt => v.Int? && IsInt64(v.i)
    case KindBool => v.Bool?
  }

  predicate LeafConforms(b: Bound, s: Schema)
    requires b.BoundComparison?
  {
    && b.selector in s
    && b.field == FieldOf(b.selector, s)
    && b.op in Allowed(b.field)
    && |b.values| >= 1
    && (!b.op.TakesMany() ==> |b.values| == 1)
    && forall v | v in b.values :: HasKind(v, b.field.kind)
  }

  /** Declared columns are used; an empty one defaults to the selector. Nothing else of the
      field changes. */
  lemma FieldIsDeclared(b: Bound, s: Schema)
    requires b.BoundComparison? && LeafConforms(b, s)
    ensures s[b.selector].column != "" ==> b.field == s[b.selector]
    ensures s[b.selector].column == "" ==>
      b.field == Field(b.selector, s[b.selector].kind, s[b.selector].ops, s[b.selector].accepted)
  {
  }

  /** The shape every accepted filter has. */
  predicate Conforms(b: Bound, s: Schema) {
    match b
    case Nil => false
    case BoundAnd(ns) => |ns| >= 2 && forall m | m in ns :: Conforms(m, s)
    case BoundOr(ns) => |ns| >= 2 && forall m | m in ns :: Conforms(m, s)
    case BoundComparison(_, _, _, _) => LeafConforms(b, s)
  }

  lemma {:induction false} BindNodeConforms(n: Node, s: Schema)
    requires WellShaped(n) && Admissible(n, s)
    ensures Conforms(BindNode(n, s), s)
  {
    match n
    case Comparison(selector, op, args) =>
      var values := BindNode(n, s).values;
      forall v | v in values ensures HasKind(v, s[selector].kind) {
        var i :| 0 <= i < |values| && values[i] == v;
        assert Coerce(args[i], s[selector]) == Ok(v);
      }
    case And(ns) => BindNodesConform(ns, s);
    case Or(ns) => BindNodesConform(ns, s);
  }

  lemma {:induction false} BindNodesConform(ns: seq<Node>, s: Schema)
    requires forall m | m in ns :: WellShaped(m) && Admissible(m, s)
    ensures forall b | b in BindNodes(ns, s) :: Conforms(b, s)
  {
    if ns != [] {
      BindNodeConforms(ns[0], s);
      BindNodesConform(ns[1..], s);
    }
  }

  lemma ParsedIsWellShaped(expr: string)
    requires ParseText(expr).Ok?
    ensures WellShaped(ParseText(expr).value)
  {
    hide Stream, DisjOk, TreeDisj, ParseDisj, WellShaped;
    TreeWellShaped(ParseDisj(Stream(expr)).tree);
  }

  /** Parser, binder and coercion together: an accepted filter has no group of fewer than two
      operands, and each leaf has a selector of the schema, an allowed operator, the right
      number of values and values of the declared kind. */
  lemma AcceptedConforms(expr: string, s: Schema, lim: Limits)
    requires BindText(expr, s, lim).Ok?
    ensures Conforms(BindText(expr, s, lim).value, s)
  {
    hide ParseText, WellShaped, Conforms, Admissible;
    ParsedIsWellShaped(expr);
    BindNodeConforms(ParseText(expr).value, s);
  }
}
