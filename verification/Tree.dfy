/** Building and rewriting bound trees (rsql/tree.go). */
module Trees {
  import opened Schemas

  // ----- All, Any -----

  /** What one operand contributes to a flattened group. One level only is flattened. */
  function Parts(n: Bound, or: bool): seq<Bound> {
    match n
    case Nil => []
    case BoundAnd(ns) => if or then [n] else ns
    case BoundOr(ns) => if or then ns else [n]
    case BoundComparison(_, _, _, _) => [n]
  }

  function Flatten(nodes: seq<Bound>, or: bool): seq<Bound> {
    if nodes == [] then [] else Parts(nodes[0], or) + Flatten(nodes[1..], or)
  }

  function GroupOf(flat: seq<Bound>, or: bool): Bound {
    if |flat| == 0 then Nil
    else if |flat| == 1 then flat[0]
    else if or then BoundOr(flat)
    else BoundAnd(flat)
  }

  function Combined(nodes: seq<Bound>, or: bool): Bound {
    GroupOf(Flatten(nodes, or), or)
  }

  lemma {:induction false} FlattenConcat(a: seq<Bound>, b: seq<Bound>, or: bool)
    ensures Flatten(a + b, or) == Flatten(a, or) + Flatten(b, or)
  {
    if a == [] {
      assert a + b == b;
    } else {
      assert (a + b)[1..] == a[1..] + b;
      FlattenConcat(a[1..], b, or);
    }
  }

  lemma FlattenOne(n: Bound, or: bool)
    ensures Flatten([n], or) == Parts(n, or)
  {
    assert [n][1..] == [];
  }

  method All(nodes: seq<Bound>) returns (r: Bound)
    ensures r == Combined(nodes, false)
  {
    r := Combine(nodes, false);
  }

  method Any(nodes: seq<Bound>) returns (r: Bound)
    ensures r == Combined(nodes, true)
  {
    r := Combine(nodes, true);
  }

  method Combine(nodes: seq<Bound>, or: bool) returns (r: Bound)
    ensures r == Combined(nodes, or)
  {
    hide Parts;
    var flat: seq<Bound> := [];
    assert nodes[..0] == [];
    for i := 0 to |nodes|
      invariant flat == Flatten(nodes[..i], or)
    {
      var n := nodes[i];
      assert nodes[..i + 1] == nodes[..i] + [n];
      FlattenConcat(nodes[..i], [n], or);
      FlattenOne(n, or);
      flat := AppendParts(flat, n, or);
    }
    assert nodes[..|nodes|] == nodes;
    if |flat| == 0 {
      return Nil;
    }
    if |flat| == 1 {
      return flat[0];
    }
    if or {
      return BoundOr(flat);
    }
    return BoundAnd(flat);
  }

  /** The type switch of the loop in `combine`. */
  method AppendParts(flat: seq<Bound>, n: Bound, or: bool) returns (r: seq<Bound>)
    ensures r == flat + Parts(n, or)
  {
    match n {
      case Nil =>
        r := flat;
      case BoundAnd(ns) =>
        r := flat + if or then [n] else ns;
      case BoundOr(ns) =>
        r := flat + if !or then [n] else ns;
      case BoundComparison(_, _, _, _) =>
        r := flat + [n];
    }
  }

  // ----- Rewrite -----

  function Rewritten(b: Bound, fn: Bound -> Bound): Bound {
    match b
    case Nil => Nil
    case BoundAnd(ns) => fn(Combined(RewrittenAll(ns, fn), false))
    case BoundOr(ns) => fn(Combined(RewrittenAll(ns, fn), true))
    case BoundComparison(_, _, _, _) => fn(b)
  }

  function RewrittenAll(ns: seq<Bound>, fn: Bound -> Bound): seq<Bound> {
    if ns == [] then [] else [Rewritten(ns[0], fn)] + RewrittenAll(ns[1..], fn)
  }

  lemma {:induction false} RewrittenAllAppend(ns: seq<Bound>, n: Bound, fn: Bound -> Bound)
    ensures RewrittenAll(ns + [n], fn) == RewrittenAll(ns, fn) + [Rewritten(n, fn)]
  {
    hide Rewritten;
    if ns == [] {
      assert ns + [n] == [n];
    } else {
      assert (ns + [n])[0] == ns[0] && (ns + [n])[1..] == ns[1..] + [n];
      RewrittenAllAppend(ns[1..], n, fn);
    }
  }

  method Rewrite(b: Bound, fn: Bound -> Bound) returns (r: Bound)
    ensures r == Rewritten(b, fn)
    decreases b
  {
    hide Combined;
    if b == Nil {
      return Nil;
    }
    match b {
      case BoundAnd(ns) =>
        var nodes := RewriteAll(ns, fn);
        var group := All(nodes);
        return fn(group);
      case BoundOr(ns) =>
        var nodes := RewriteAll(ns, fn);
        var group := Any(nodes);
        return fn(group);
      case _ =>
    }
    return fn(b);
  }

  method RewriteAll(ns: seq<Bound>, fn: Bound -> Bound) returns (out: seq<Bound>)
    ensures out == RewrittenAll(ns, fn)
    decreases ns
  {
    hide Rewritten;
    out := [];
    assert ns[..0] == [];
    for i := 0 to |ns|
      invariant out == RewrittenAll(ns[..i], fn)
    {
      assert ns[..i + 1] == ns[..i] + [ns[i]];
      RewrittenAllAppend(ns[..i], ns[i], fn);
      var n := Rewrite(ns[i], fn);
      out := out + [n];
    }
    assert ns[..|ns|] == ns;
  }

  // ----- what a tree means -----

  /** The truth of a tree; a nil, or a group with nothing in it, is absent. */
  datatype Truth = Absent | Known(value: bool)

  /** Absent is neutral in both kinds of group. */
  function Merge(a: Truth, b: Truth, or: bool): Truth {
    if a.Absent? then b
    else if b.Absent? then a
    else Known(if or then a.value || b.value else a.value && b.value)
  }

  /** `holds` decides comparisons. */
  function Meaning(b: Bound, holds: Bound -> bool): Truth {
    match b
    case Nil => Absent
    case BoundAnd(ns) => GroupMeaning(ns, false, holds)
    case BoundOr(ns) => GroupMeaning(ns, true, holds)
    case BoundComparison(_, _, _, _) => Known(holds(b))
  }

  function GroupMeaning(ns: seq<Bound>, or: bool, holds: Bound -> bool): Truth {
    if ns == [] then Absent else Merge(Meaning(ns[0], holds), GroupMeaning(ns[1..], or, holds), or)
  }

  /** The same, said of all operands at once: a group is absent when all its operands are, and
      otherwise it is the conjunction or disjunction of those that are not. */
  lemma {:induction false} GroupMeaningIs(ns: seq<Bound>, or: bool, holds: Bound -> bool)
    ensures var t := GroupMeaning(ns, or, holds);
      && (t.Absent? <==> forall n | n in ns :: Meaning(n, holds).Absent?)
      && (t.Known? && !or ==> (t.value <==> forall n | n in ns :: Meaning(n, holds) != Known(false)))
      && (t.Known? && or ==> (t.value <==> exists n | n in ns :: Meaning(n, holds) == Known(true)))
  {
    hide Meaning;
    if ns != [] {
      GroupMeaningIs(ns[1..], or, holds);
      assert forall n :: n in ns <==> n == ns[0] || n in ns[1..];
      assert ns[0] in ns;
    }
  }

  lemma {:induction false} GroupMeaningConcat(a: seq<Bound>, b: seq<Bound>, or: bool, holds: Bound -> bool)
    ensures GroupMeaning(a + b, or, holds) == Merge(GroupMeaning(a, or, holds), GroupMeaning(b, or, holds), or)
  {
    hide Meaning;
    if a == [] {
      assert a + b == b;
    } else {
      assert (a + b)[1..] == a[1..] + b;
      GroupMeaningConcat(a[1..], b, or, holds);
    }
  }

  lemma GroupMeaningOne(n: Bound, or: bool, holds: Bound -> bool)
    ensures GroupMeaning([n], or, holds) == Meaning(n, holds)
  {
    assert [n][1..] == [];
  }

  lemma PartsMean(n: Bound, or: bool, holds: Bound -> bool)
    ensures GroupMeaning(Parts(n, or), or, holds) == Meaning(n, holds)
  {
    GroupMeaningOne(n, or, holds);
  }

  lemma {:induction false} FlattenMeans(nodes: seq<Bound>, or: bool, holds: Bound -> bool)
    ensures GroupMeaning(Flatten(nodes, or), or, holds) == GroupMeaning(nodes, or, holds)
  {
    hide Meaning, Parts;
    if nodes != [] {
      FlattenMeans(nodes[1..], or, holds);
      PartsMean(nodes[0], or, holds);
      GroupMeaningConcat(Parts(nodes[0], or), Flatten(nodes[1..], or), or, holds);
    }
  }

  /** `All` and `Any` mean the conjunction and disjunction of their operands: flattening,
      dropping nils and unwrapping a sole operand change nothing, for any operands. */
  lemma CombinedMeans(nodes: seq<Bound>, or: bool, holds: Bound -> bool)
    ensures Meaning(Combined(nodes, or), holds) == GroupMeaning(nodes, or, holds)
  {
    hide Flatten;
    var flat := Flatten(nodes, or);
    FlattenMeans(nodes, or, holds);
    if |flat| == 1 {
      assert flat == [flat[0]];
      GroupMeaningOne(flat[0], or, holds);
    }
  }

  // ----- All and Any as monoids -----

  /** Every group has at least two operands. */
  predicate Solid(b: Bound) {
    match b
    case Nil => true
    case BoundAnd(ns) => |ns| >= 2 && forall m | m in ns :: Solid(m)
    case BoundOr(ns) => |ns| >= 2 && forall m | m in ns :: Solid(m)
    case BoundComparison(_, _, _, _) => true
  }

  lemma PartsSolid(n: Bound, or: bool)
    requires Solid(n)
    ensures forall m | m in Parts(n, or) :: Solid(m)
    ensures |Parts(n, or)| == 1 ==> Parts(n, or) == [n]
  {
  }

  lemma {:induction false} FlattenSolid(nodes: seq<Bound>, or: bool)
    requires forall n | n in nodes :: Solid(n)
    ensures forall n | n in Flatten(nodes, or) :: Solid(n)
    ensures |Flatten(nodes, or)| == 1 ==> Parts(Flatten(nodes, or)[0], or) == Flatten(nodes, or)
  {
    hide Solid, Parts;
    if nodes != [] {
      FlattenSolid(nodes[1..], or);
      assert forall n :: n in Flatten(nodes, or) <==> n in Parts(nodes[0], or) || n in Flatten(nodes[1..], or);
      PartsSolid(nodes[0], or);
      if Parts(nodes[0], or) == [] {
        assert Flatten(nodes, or) == Flatten(nodes[1..], or);
      } else if |Flatten(nodes, or)| == 1 {
        assert Flatten(nodes, or) == Parts(nodes[0], or);
      }
    }
  }

  lemma CombinedParts(nodes: seq<Bound>, or: bool)
    requires forall n | n in nodes :: Solid(n)
    ensures Solid(Combined(nodes, or))
    ensures Parts(Combined(nodes, or), or) == Flatten(nodes, or)
  {
    hide Flatten;
    FlattenSolid(nodes, or);
  }

  /** Combining in two steps is combining at once. With `CombinedUnit` this makes `All` and
      `Any` associative with nil as identity, and the result stays in the same shape. */
  lemma CombinedNests(xs: seq<Bound>, ys: seq<Bound>, or: bool)
    requires forall n | n in xs :: Solid(n)
    requires forall n | n in ys :: Solid(n)
    ensures Solid(Combined(xs + ys, or))
    ensures Combined(xs + ys, or) == Combined([Combined(xs, or), Combined(ys, or)], or)
  {
    hide GroupOf, Solid, Parts;
    var x, y := Combined(xs, or), Combined(ys, or);
    CombinedParts(xs, or);
    CombinedParts(ys, or);
    CombinedParts(xs + ys, or);
    FlattenConcat(xs, ys, or);
    FlattenConcat([x], [y], or);
    FlattenOne(x, or);
    FlattenOne(y, or);
    assert [x] + [y] == [x, y];
  }

  lemma CombinedUnit(b: Bound, or: bool)
    requires Solid(b)
    ensures Combined([b], or) == b
    ensures Combined([b, Nil], or) == b && Combined([Nil, b], or) == b
  {
    hide Flatten;
    FlattenOne(b, or);
    FlattenOne(Nil, or);
    FlattenConcat([b], [Nil], or);
    FlattenConcat([Nil], [b], or);
    assert [b] + [Nil] == [b, Nil] && [Nil] + [b] == [Nil, b];
  }

  lemma CombinedAssociative(a: Bound, b: Bound, c: Bound, or: bool)
    requires Solid(a) && Solid(b) && Solid(c)
    ensures Combined([Combined([a, b], or), c], or) == Combined([a, Combined([b, c], or)], or)
  {
    hide Combined, Solid;
    CombinedNests([a, b], [c], or);
    CombinedNests([a], [b, c], or);
    CombinedUnit(a, or);
    CombinedUnit(c, or);
    assert [a, b] + [c] == [a] + [b, c];
  }

  // ----- what Rewrite does -----

  /** Leaves groups and nil alone. What it makes of a comparison is free: nil, another comparison
      or a group. Dropping comparisons by any test is the main example. */
  ghost predicate OnComparisons(fn: Bound -> Bound) {
    forall b: Bound | !b.BoundComparison? :: fn(b) == b
  }

  lemma KeepsOthers(fn: Bound -> Bound, b: Bound)
    requires OnComparisons(fn)
    ensures !b.BoundComparison? ==> fn(b) == b
  {
  }

  /** A group that collapses to one comparison has `fn` called on that comparison again. */
  predicate Stays(b: Bound, fn: Bound -> Bound) {
    b.BoundComparison? ==> fn(b) == b
  }

  /** `fn` leaves every sole survivor of a collapsed group as it is. */
  predicate Settles(b: Bound, fn: Bound -> Bound) {
    match b
    case Nil => true
    case BoundAnd(ns) => (forall m | m in ns :: Settles(m, fn)) && Stays(Combined(RewrittenAll(ns, fn), false), fn)
    case BoundOr(ns) => (forall m | m in ns :: Settles(m, fn)) && Stays(Combined(RewrittenAll(ns, fn), true), fn)
    case BoundComparison(_, _, _, _) => true
  }

  lemma SettlesMeansCombined(b: Bound, fn: Bound -> Bound)
    requires OnComparisons(fn) && Settles(b, fn)
    ensures b.BoundAnd? ==> Rewritten(b, fn) == Combined(RewrittenAll(b.nodes, fn), false)
    ensures b.BoundOr? ==> Rewritten(b, fn) == Combined(RewrittenAll(b.nodes, fn), true)
  {
    hide OnComparisons, Combined;
    match b
    case BoundAnd(ns) => KeepsOthers(fn, Combined(RewrittenAll(ns, fn), false));
    case BoundOr(ns) => KeepsOthers(fn, Combined(RewrittenAll(ns, fn), true));
    case _ =>
  }

  /** No group directly under a group of its kind, none with fewer than two operands, and nil
      nowhere but at the top. */
  predicate Tidy(b: Bound) {
    match b
    case Nil => true
    case BoundAnd(ns) => |ns| >= 2 && forall m | m in ns :: Tidy(m) && !m.Nil? && !m.BoundAnd?
    case BoundOr(ns) => |ns| >= 2 && forall m | m in ns :: Tidy(m) && !m.Nil? && !m.BoundOr?
    case BoundComparison(_, _, _, _) => true
  }

  lemma {:induction false} FlattenTidy(nodes: seq<Bound>, or: bool)
    requires forall n | n in nodes :: Tidy(n)
    ensures forall n | n in Flatten(nodes, or) :: Tidy(n) && !n.Nil? && (if or then !n.BoundOr? else !n.BoundAnd?)
  {
    if nodes != [] {
      FlattenTidy(nodes[1..], or);
      assert forall n :: n in Flatten(nodes, or) <==> n in Parts(nodes[0], or) || n in Flatten(nodes[1..], or);
      assert Tidy(nodes[0]);
    }
  }

  lemma CombinedTidy(nodes: seq<Bound>, or: bool)
    requires forall n | n in nodes :: Tidy(n)
    ensures Tidy(Combined(nodes, or))
  {
    hide Flatten;
    FlattenTidy(nodes, or);
  }

  /** What `fn` makes of a comparison is tidy. */
  ghost predicate MakesTidy(fn: Bound -> Bound) {
    forall l: Bound | l.BoundComparison? :: Tidy(fn(l))
  }

  /** `fn` makes tidy trees of tidy trees, whether it acts on comparisons or on groups. */
  ghost predicate KeepsTidy(fn: Bound -> Bound) {
    forall b: Bound | Tidy(b) :: Tidy(fn(b))
  }

  lemma TidyOnComparisons(fn: Bound -> Bound)
    requires OnComparisons(fn) && MakesTidy(fn)
    ensures KeepsTidy(fn)
  {
  }

  /** `Rewrite` normalizes any tree: the result is tidy, whatever is dropped, replaced or
      expanded, as long as the function makes no tree untidy itself. */
  lemma {:induction false} RewrittenIsTidy(b: Bound, fn: Bound -> Bound)
    requires KeepsTidy(fn)
    ensures Tidy(Rewritten(b, fn))
  {
    hide Combined;
    match b
    case Nil =>
    case BoundAnd(ns) =>
      RewrittenAllTidy(ns, fn);
      CombinedTidy(RewrittenAll(ns, fn), false);
    case BoundOr(ns) =>
      RewrittenAllTidy(ns, fn);
      CombinedTidy(RewrittenAll(ns, fn), true);
    case BoundComparison(_, _, _, _) =>
      assert Tidy(b);
  }

  lemma {:induction false} RewrittenAllTidy(ns: seq<Bound>, fn: Bound -> Bound)
    requires KeepsTidy(fn)
    ensures forall n | n in RewrittenAll(ns, fn) :: Tidy(n)
  {
    hide KeepsTidy, Rewritten, Tidy;
    if ns != [] {
      RewrittenIsTidy(ns[0], fn);
      RewrittenAllTidy(ns[1..], fn);
    }
  }

  /** Every node is replaced by `fn`'s result, groups included: whatever `Rewrite` returns for a
      tree is something `fn` returned. */
  lemma {:induction false} RewrittenIsResult(b: Bound, fn: Bound -> Bound, p: Bound -> bool)
    requires b != Nil && forall x :: p(fn(x))
    ensures p(Rewritten(b, fn))
  {
    hide Combined;
  }

  /** The comparisons of a tree, left to right. */
  function Leaves(b: Bound): seq<Bound> {
    match b
    case Nil => []
    case BoundAnd(ns) => LeavesAll(ns)
    case BoundOr(ns) => LeavesAll(ns)
    case BoundComparison(_, _, _, _) => [b]
  }

  function LeavesAll(ns: seq<Bound>): seq<Bound> {
    if ns == [] then [] else Leaves(ns[0]) + LeavesAll(ns[1..])
  }

  /** The comparisons in what `fn` makes of each of `leaves`: none where it drops one. */
  function Kept(leaves: seq<Bound>, fn: Bound -> Bound): seq<Bound> {
    if leaves == [] then [] else Leaves(fn(leaves[0])) + Kept(leaves[1..], fn)
  }

  lemma {:induction false} KeptConcat(a: seq<Bound>, b: seq<Bound>, fn: Bound -> Bound)
    ensures Kept(a + b, fn) == Kept(a, fn) + Kept(b, fn)
  {
    hide Leaves;
    if a == [] {
      assert a + b == b;
    } else {
      assert (a + b)[1..] == a[1..] + b;
      KeptConcat(a[1..], b, fn);
    }
  }

  lemma KeptOne(l: Bound, fn: Bound -> Bound)
    ensures Kept([l], fn) == Leaves(fn(l))
  {
    hide Leaves;
    assert [l][1..] == [] && Leaves(fn(l)) + [] == Leaves(fn(l));
  }

  lemma {:induction false} LeavesConcat(a: seq<Bound>, b: seq<Bound>)
    ensures LeavesAll(a + b) == LeavesAll(a) + LeavesAll(b)
  {
    hide Leaves;
    if a == [] {
      assert a + b == b;
    } else {
      assert (a + b)[1..] == a[1..] + b;
      LeavesConcat(a[1..], b);
    }
  }

  lemma LeavesOne(n: Bound)
    ensures LeavesAll([n]) == Leaves(n)
  {
    assert [n][1..] == [];
  }

  lemma {:induction false} CombinedLeaves(nodes: seq<Bound>, or: bool)
    ensures Leaves(Combined(nodes, or)) == LeavesAll(nodes)
  {
    FlattenLeaves(nodes, or);
    var flat := Flatten(nodes, or);
    if |flat| == 1 {
      assert flat == [flat[0]];
      LeavesOne(flat[0]);
    }
  }

  lemma {:induction false} FlattenLeaves(nodes: seq<Bound>, or: bool)
    ensures LeavesAll(Flatten(nodes, or)) == LeavesAll(nodes)
  {
    if nodes != [] {
      LeavesOne(nodes[0]);
      LeavesConcat(Parts(nodes[0], or), Flatten(nodes[1..], or));
      FlattenLeaves(nodes[1..], or);
    }
  }

  /** `Rewrite` conserves leaves: the comparisons of the result are, in the same order, those
      that `fn` makes of the comparisons of the original. */
  lemma {:induction false} RewrittenKeepsLeaves(b: Bound, fn: Bound -> Bound)
    requires OnComparisons(fn) && Settles(b, fn)
    ensures Leaves(Rewritten(b, fn)) == Kept(Leaves(b), fn)
  {
    hide OnComparisons, Combined, Stays;
    SettlesMeansCombined(b, fn);
    match b
    case Nil =>
    case BoundAnd(ns) =>
      RewrittenAllKeepsLeaves(ns, fn);
      CombinedLeaves(RewrittenAll(ns, fn), false);
    case BoundOr(ns) =>
      RewrittenAllKeepsLeaves(ns, fn);
      CombinedLeaves(RewrittenAll(ns, fn), true);
    case BoundComparison(_, _, _, _) =>
      KeptOne(b, fn);
  }

  lemma {:induction false} RewrittenAllKeepsLeaves(ns: seq<Bound>, fn: Bound -> Bound)
    requires OnComparisons(fn) && forall m | m in ns :: Settles(m, fn)
    ensures LeavesAll(RewrittenAll(ns, fn)) == Kept(LeavesAll(ns), fn)
  {
    hide OnComparisons, Settles, Rewritten, Leaves;
    if ns != [] {
      RewrittenKeepsLeaves(ns[0], fn);
      RewrittenAllKeepsLeaves(ns[1..], fn);
      KeptConcat(Leaves(ns[0]), LeavesAll(ns[1..]), fn);
      assert RewrittenAll(ns, fn)[1..] == RewrittenAll(ns[1..], fn);
    }
  }

  /** The meaning of a tree when each comparison stands for what `fn` makes of it, and those
      dropped are absent. */
  function MeaningUnder(b: Bound, fn: Bound -> Bound, holds: Bound -> bool): Truth {
    match b
    case Nil => Absent
    case BoundAnd(ns) => GroupMeaningUnder(ns, false, fn, holds)
    case BoundOr(ns) => GroupMeaningUnder(ns, true, fn, holds)
    case BoundComparison(_, _, _, _) => Meaning(fn(b), holds)
  }

  function GroupMeaningUnder(ns: seq<Bound>, or: bool, fn: Bound -> Bound, holds: Bound -> bool): Truth {
    if ns == [] then Absent
    else Merge(MeaningUnder(ns[0], fn, holds), GroupMeaningUnder(ns[1..], or, fn, holds), or)
  }

  /** The law of `Rewrite`: the result means the original tree with each comparison meaning what
      `fn` makes of it, and those dropped absent, each group falling back on its neutral
      element. */
  lemma {:induction false} RewrittenMeans(b: Bound, fn: Bound -> Bound, holds: Bound -> bool)
    requires OnComparisons(fn) && Settles(b, fn)
    ensures Meaning(Rewritten(b, fn), holds) == MeaningUnder(b, fn, holds)
  {
    hide OnComparisons, Combined, Stays;
    SettlesMeansCombined(b, fn);
    match b
    case Nil =>
    case BoundAnd(ns) =>
      RewrittenAllMeans(ns, false, fn, holds);
      CombinedMeans(RewrittenAll(ns, fn), false, holds);
    case BoundOr(ns) =>
      RewrittenAllMeans(ns, true, fn, holds);
      CombinedMeans(RewrittenAll(ns, fn), true, holds);
    case BoundComparison(_, _, _, _) =>
  }

  lemma {:induction false} RewrittenAllMeans(ns: seq<Bound>, or: bool, fn: Bound -> Bound, holds: Bound -> bool)
    requires OnComparisons(fn) && forall m | m in ns :: Settles(m, fn)
    ensures GroupMeaning(RewrittenAll(ns, fn), or, holds) == GroupMeaningUnder(ns, or, fn, holds)
  {
    hide OnComparisons, Settles, Rewritten, Meaning, MeaningUnder;
    if ns != [] {
      RewrittenMeans(ns[0], fn, holds);
      RewrittenAllMeans(ns[1..], or, fn, holds);
      assert RewrittenAll(ns, fn)[1..] == RewrittenAll(ns[1..], fn);
    }
  }

  // ----- when sole survivors settle -----

  /** A comparison that `fn` returns is one that `fn` returns unchanged. */
  ghost predicate Idempotent(fn: Bound -> Bound) {
    forall l: Bound | l.BoundComparison? :: fn(l).BoundComparison? ==> fn(fn(l)) == fn(l)
  }

  ghost predicate DropsNothing(fn: Bound -> Bound) {
    forall l: Bound | l.BoundComparison? :: !fn(l).Nil?
  }

  /** Groups have at least two operands and there is no nil, as in everything `Bind` returns. */
  predicate Full(b: Bound) {
    match b
    case Nil => false
    case BoundAnd(ns) => |ns| >= 2 && forall m | m in ns :: Full(m)
    case BoundOr(ns) => |ns| >= 2 && forall m | m in ns :: Full(m)
    case BoundComparison(_, _, _, _) => true
  }

  /** A group can only collapse to a comparison that is one of its operands. */
  lemma {:induction false} FlattenToOne(nodes: seq<Bound>, or: bool)
    requires forall n | n in nodes :: Tidy(n)
    ensures |Flatten(nodes, or)| == 1 && Flatten(nodes, or)[0].BoundComparison? ==> Flatten(nodes, or)[0] in nodes
  {
    if nodes != [] {
      FlattenToOne(nodes[1..], or);
      var first, rest := Parts(nodes[0], or), Flatten(nodes[1..], or);
      assert Tidy(nodes[0]);
      if first == [] {
        assert Flatten(nodes, or) == rest;
      } else if |first + rest| == 1 {
        assert first + rest == first;
      }
    }
  }

  lemma {:induction false} IdempotentSettles(b: Bound, fn: Bound -> Bound)
    requires OnComparisons(fn) && MakesTidy(fn) && Idempotent(fn)
    ensures Settles(b, fn) && Stays(Rewritten(b, fn), fn)
  {
    hide OnComparisons, MakesTidy, Combined;
    match b
    case Nil =>
    case BoundAnd(ns) => IdempotentSettlesAll(ns, fn, false);
    case BoundOr(ns) => IdempotentSettlesAll(ns, fn, true);
    case BoundComparison(_, _, _, _) =>
  }

  lemma {:induction false} IdempotentSettlesAll(ns: seq<Bound>, fn: Bound -> Bound, or: bool)
    requires OnComparisons(fn) && MakesTidy(fn) && Idempotent(fn)
    ensures forall m | m in ns :: Settles(m, fn)
    ensures forall n | n in RewrittenAll(ns, fn) :: Stays(n, fn)
    ensures var c := Combined(RewrittenAll(ns, fn), or); Stays(c, fn) && fn(c) == c
  {
    hide OnComparisons, MakesTidy, KeepsTidy, Idempotent, Settles, Rewritten, Tidy, Flatten;
    if ns != [] {
      IdempotentSettles(ns[0], fn);
      IdempotentSettlesAll(ns[1..], fn, or);
    }
    TidyOnComparisons(fn);
    RewrittenAllTidy(ns, fn);
    FlattenToOne(RewrittenAll(ns, fn), or);
    KeepsOthers(fn, Combined(RewrittenAll(ns, fn), or));
  }

  lemma {:induction false} FlattenKeepsCount(nodes: seq<Bound>, or: bool)
    requires forall n | n in nodes :: Tidy(n) && !n.Nil?
    ensures |Flatten(nodes, or)| >= |nodes|
  {
    if nodes != [] {
      FlattenKeepsCount(nodes[1..], or);
      assert Tidy(nodes[0]) && |Parts(nodes[0], or)| >= 1;
    }
  }

  /** Without drops nothing collapses, so `fn` is called once on each comparison. */
  lemma {:induction false} NoDropSettles(b: Bound, fn: Bound -> Bound)
    requires OnComparisons(fn) && MakesTidy(fn) && DropsNothing(fn) && Full(b)
    ensures Settles(b, fn) && !Rewritten(b, fn).Nil?
  {
    hide OnComparisons, MakesTidy, Combined;
    match b
    case BoundAnd(ns) => NoDropSettlesAll(ns, fn, false);
    case BoundOr(ns) => NoDropSettlesAll(ns, fn, true);
    case BoundComparison(_, _, _, _) =>
  }

  lemma {:induction false} NoDropSettlesAll(ns: seq<Bound>, fn: Bound -> Bound, or: bool)
    requires OnComparisons(fn) && MakesTidy(fn) && DropsNothing(fn) && forall m | m in ns :: Full(m)
    ensures forall m | m in ns :: Settles(m, fn)
    ensures |RewrittenAll(ns, fn)| == |ns| && forall n | n in RewrittenAll(ns, fn) :: !n.Nil?
    ensures |ns| >= 2 ==> var c := Combined(RewrittenAll(ns, fn), or); !c.Nil? && !c.BoundComparison? && fn(c) == c
  {
    hide OnComparisons, MakesTidy, KeepsTidy, DropsNothing, Full, Settles, Rewritten, Tidy, Flatten;
    if ns != [] {
      NoDropSettles(ns[0], fn);
      NoDropSettlesAll(ns[1..], fn, or);
    }
    TidyOnComparisons(fn);
    RewrittenAllTidy(ns, fn);
    FlattenKeepsCount(RewrittenAll(ns, fn), or);
    KeepsOthers(fn, Combined(RewrittenAll(ns, fn), or));
  }

  lemma {:induction false} TidyLeavesCount(ns: seq<Bound>)
    requires forall m | m in ns :: Tidy(m) && !m.Nil?
    ensures |LeavesAll(ns)| >= |ns|
  {
    if ns != [] {
      TidyHasLeaf(ns[0]);
      TidyLeavesCount(ns[1..]);
    }
  }

  lemma {:induction false} TidyHasLeaf(b: Bound)
    requires Tidy(b) && !b.Nil?
    ensures |Leaves(b)| >= if b.BoundComparison? then 1 else 2
  {
    match b
    case BoundAnd(ns) => TidyLeavesCount(ns);
    case BoundOr(ns) => TidyLeavesCount(ns);
    case BoundComparison(_, _, _, _) =>
  }

  /** The law `Rewrite` is documented with, on all trees of the shape that `Bind` returns: each
      comparison is replaced by what `fn` makes of it. */
  ghost predicate ReplacesLeaves(fn: Bound -> Bound) {
    forall b: Bound | Full(b) :: Leaves(Rewritten(b, fn)) == Kept(Leaves(b), fn)
  }

  /** Of two comparisons under one AND the second is dropped: `fn` is called on the first, and
      then on what it made of it. */
  lemma DropCallsTwice(l: Bound, d: Bound, fn: Bound -> Bound)
    requires OnComparisons(fn) && l.BoundComparison? && d.BoundComparison?
    requires fn(l).BoundComparison? && fn(d).Nil?
    ensures Rewritten(BoundAnd([l, d]), fn) == fn(fn(l))
    ensures Kept(Leaves(BoundAnd([l, d])), fn) == [fn(l)]
  {
    hide OnComparisons;
    var nodes := RewrittenAll([l, d], fn);
    assert [l, d][1..] == [d] && [d][1..] == [];
    assert RewrittenAll([d], fn) == [Rewritten(d, fn)] + RewrittenAll([], fn);
    assert nodes == [Rewritten(l, fn)] + RewrittenAll([d], fn);
    assert RewrittenAll([], fn) == [] && nodes == [fn(l)] + [Nil];
    FlattenConcat([fn(l)], [Nil], false);
    FlattenOne(fn(l), false);
    FlattenOne(Nil, false);
    assert Flatten(nodes, false) == [fn(l)] && Combined(nodes, false) == fn(l);
    LeavesConcat([l], [d]);
    LeavesOne(l);
    LeavesOne(d);
    KeptConcat([l], [d], fn);
    KeptOne(l, fn);
    KeptOne(d, fn);
    assert [l] + [d] == [l, d];
  }

  /** A function on comparisons replaces each of them by its result, on every tree, exactly when
      it drops nothing or is idempotent. Otherwise it may be applied again to the comparison
      that is left when the rest of a group is dropped. */
  lemma {:induction false} ReplacesLeavesIff(fn: Bound -> Bound)
    requires OnComparisons(fn) && MakesTidy(fn)
    ensures ReplacesLeaves(fn) <==> DropsNothing(fn) || Idempotent(fn)
  {
    hide OnComparisons, MakesTidy, Settles, Rewritten, Leaves, Kept;
    if DropsNothing(fn) || Idempotent(fn) {
      forall b: Bound | Full(b) ensures Leaves(Rewritten(b, fn)) == Kept(Leaves(b), fn) {
        if DropsNothing(fn) { NoDropSettles(b, fn); } else { IdempotentSettles(b, fn); }
        RewrittenKeepsLeaves(b, fn);
      }
    } else {
      var d: Bound :| d.BoundComparison? && fn(d).Nil?;
      var l: Bound :| l.BoundComparison? && fn(l).BoundComparison? && fn(fn(l)) != fn(l);
      var b := BoundAnd([l, d]);
      DropCallsTwice(l, d, fn);
      OtherLeaves(fn(l), fn);
      assert Full(b) && Leaves(Rewritten(b, fn)) != Kept(Leaves(b), fn);
    }
  }

  lemma OtherLeaves(l: Bound, fn: Bound -> Bound)
    requires MakesTidy(fn) && l.BoundComparison? && fn(l) != l
    ensures Leaves(fn(l)) != [l]
  {
    if !fn(l).Nil? && !fn(l).BoundComparison? {
      TidyHasLeaf(fn(l));
    }
  }

  // ----- functions that drop groups -----

  /** Drops every group that fails the test, which is told its kind and its comparisons, and
      leaves everything else as it is. */
  function Dropping(test: (bool, seq<Bound>) -> bool): Bound -> Bound {
    (b: Bound) => if (b.BoundAnd? || b.BoundOr?) && !test(b.BoundOr?, Leaves(b)) then Nil else b
  }

  /** The comparisons that are left when the groups that fail are dropped, from the inside out.
      A group of which at most one operand is left is no group any more. */
  function LeavesLeft(b: Bound, test: (bool, seq<Bound>) -> bool): seq<Bound>
    decreases b
  {
    match b
    case Nil => []
    case BoundAnd(ns) => if Falls(ns, false, test) then [] else LeavesLeftAll(ns, test)
    case BoundOr(ns) => if Falls(ns, true, test) then [] else LeavesLeftAll(ns, test)
    case BoundComparison(_, _, _, _) => [b]
  }

  function LeavesLeftAll(ns: seq<Bound>, test: (bool, seq<Bound>) -> bool): seq<Bound>
    decreases ns, 0
  {
    if ns == [] then [] else LeavesLeft(ns[0], test) + LeavesLeftAll(ns[1..], test)
  }

  /** How many operands have something left. */
  function Alive(ns: seq<Bound>, test: (bool, seq<Bound>) -> bool): nat
    decreases ns, 0
  {
    if ns == [] then 0 else (if LeavesLeft(ns[0], test) == [] then 0 else 1) + Alive(ns[1..], test)
  }

  predicate Falls(ns: seq<Bound>, or: bool, test: (bool, seq<Bound>) -> bool)
    decreases ns, 1
  {
    Alive(ns, test) >= 2 && !test(or, LeavesLeftAll(ns, test))
  }

  /** The meaning with the groups that fall absent. */
  function MeaningLeft(b: Bound, test: (bool, seq<Bound>) -> bool, holds: Bound -> bool): Truth {
    match b
    case Nil => Absent
    case BoundAnd(ns) => if Falls(ns, false, test) then Absent else GroupMeaningLeft(ns, false, test, holds)
    case BoundOr(ns) => if Falls(ns, true, test) then Absent else GroupMeaningLeft(ns, true, test, holds)
    case BoundComparison(_, _, _, _) => Known(holds(b))
  }

  function GroupMeaningLeft(ns: seq<Bound>, or: bool, test: (bool, seq<Bound>) -> bool, holds: Bound -> bool): Truth {
    if ns == [] then Absent
    else Merge(MeaningLeft(ns[0], test, holds), GroupMeaningLeft(ns[1..], or, test, holds), or)
  }

  function CountNotNil(nodes: seq<Bound>): nat {
    if nodes == [] then 0 else (if nodes[0].Nil? then 0 else 1) + CountNotNil(nodes[1..])
  }

  /** What flattening makes of no operand, of one and of more. */
  lemma {:induction false} FlattenByCount(nodes: seq<Bound>, or: bool)
    requires forall n | n in nodes :: Tidy(n)
    ensures CountNotNil(nodes) == 0 ==> Flatten(nodes, or) == []
    ensures CountNotNil(nodes) == 1 ==> exists n | n in nodes :: !n.Nil? && Flatten(nodes, or) == Parts(n, or)
    ensures CountNotNil(nodes) >= 2 ==> |Flatten(nodes, or)| >= 2
    ensures CountNotNil(nodes) >= 1 ==> |Flatten(nodes, or)| >= 1
  {
    if nodes != [] {
      FlattenByCount(nodes[1..], or);
      assert Tidy(nodes[0]) && nodes[0] in nodes;
      if nodes[0].Nil? {
        assert Flatten(nodes, or) == Flatten(nodes[1..], or);
        assert forall n | n in nodes[1..] :: n in nodes;
      } else {
        assert |Parts(nodes[0], or)| >= 1;
        if CountNotNil(nodes[1..]) == 0 {
          assert Flatten(nodes, or) == Parts(nodes[0], or);
        }
      }
    }
  }

  /** A group that was left is one that passed the test. */
  predicate Passed(b: Bound, test: (bool, seq<Bound>) -> bool) {
    b.BoundAnd? || b.BoundOr? ==> test(b.BoundOr?, Leaves(b))
  }

  lemma CombinedDropping(nodes: seq<Bound>, or: bool, test: (bool, seq<Bound>) -> bool)
    requires forall n | n in nodes :: Tidy(n) && Passed(n, test)
    ensures var c := Combined(nodes, or);
      && Dropping(test)(c) == (if CountNotNil(nodes) >= 2 && !test(or, LeavesAll(nodes)) then Nil else c)
      && Passed(Dropping(test)(c), test)
  {
    hide Flatten, LeavesAll;
    FlattenByCount(nodes, or);
    CombinedLeaves(nodes, or);
    var flat := Flatten(nodes, or);
    if CountNotNil(nodes) == 1 {
      var n :| n in nodes && !n.Nil? && flat == Parts(n, or);
      assert Tidy(n) && Combined(nodes, or) == n;
    }
  }

  lemma DroppingKeepsTidy(test: (bool, seq<Bound>) -> bool)
    ensures KeepsTidy(Dropping(test))
  {
  }

  /** Dropping groups: the comparisons of the result are those left, and it means the original
      with the dropped groups absent. */
  lemma {:induction false} RewrittenDropsGroups(b: Bound, test: (bool, seq<Bound>) -> bool, holds: Bound -> bool)
    ensures Tidy(Rewritten(b, Dropping(test))) && Passed(Rewritten(b, Dropping(test)), test)
    ensures Leaves(Rewritten(b, Dropping(test))) == LeavesLeft(b, test)
    ensures Meaning(Rewritten(b, Dropping(test)), holds) == MeaningLeft(b, test, holds)
    decreases b
  {
    hide Combined, Dropping, Tidy, Falls;
    DroppingKeepsTidy(test);
    RewrittenIsTidy(b, Dropping(test));
    match b
    case Nil =>
    case BoundAnd(ns) => GroupDropsGroups(ns, false, test, holds);
    case BoundOr(ns) => GroupDropsGroups(ns, true, test, holds);
    case BoundComparison(_, _, _, _) => DroppingKeepsComparison(b, test);
  }

  lemma DroppingKeepsComparison(b: Bound, test: (bool, seq<Bound>) -> bool)
    ensures b.BoundComparison? || b.Nil? ==> Dropping(test)(b) == b
  {
  }

  lemma {:induction false} GroupDropsGroups(ns: seq<Bound>, or: bool, test: (bool, seq<Bound>) -> bool,
                                            holds: Bound -> bool)
    ensures var fn, falls := Dropping(test), Falls(ns, or, test);
      var r := fn(Combined(RewrittenAll(ns, fn), or));
      && Passed(r, test)
      && Leaves(r) == (if falls then [] else LeavesLeftAll(ns, test))
      && Meaning(r, holds) == (if falls then Absent else GroupMeaningLeft(ns, or, test, holds))
    decreases ns, 1
  {
    hide Combined, Dropping, Tidy, Rewritten, Passed, LeavesLeft, MeaningLeft, GroupMeaningLeft;
    var nodes := RewrittenAll(ns, Dropping(test));
    DropsInEach(ns, or, test, holds);
    CombinedDropping(nodes, or, test);
    CombinedLeaves(nodes, or);
    CombinedMeans(nodes, or, holds);
  }

  lemma {:induction false} DropsInEach(ns: seq<Bound>, or: bool, test: (bool, seq<Bound>) -> bool, holds: Bound -> bool)
    ensures var nodes := RewrittenAll(ns, Dropping(test));
      && (forall n | n in nodes :: Tidy(n) && Passed(n, test))
      && LeavesAll(nodes) == LeavesLeftAll(ns, test)
      && CountNotNil(nodes) == Alive(ns, test)
      && GroupMeaning(nodes, or, holds) == GroupMeaningLeft(ns, or, test, holds)
    decreases ns, 0
  {
    hide Combined, Dropping, Tidy, Rewritten, Passed, Leaves, LeavesLeft, Meaning, MeaningLeft;
    if ns != [] {
      var nodes, first := RewrittenAll(ns, Dropping(test)), Rewritten(ns[0], Dropping(test));
      RewrittenDropsGroups(ns[0], test, holds);
      DropsInEach(ns[1..], or, test, holds);
      assert nodes[0] == first && nodes[1..] == RewrittenAll(ns[1..], Dropping(test));
      NoLeavesIsNil(first);
    }
  }

  lemma NoLeavesIsNil(b: Bound)
    requires Tidy(b)
    ensures Leaves(b) == [] <==> b.Nil?
  {
    if !b.Nil? { TidyHasLeaf(b); }
  }

  lemma LeftCons(b: Bound, ns: seq<Bound>, test: (bool, seq<Bound>) -> bool)
    ensures LeavesLeftAll([b] + ns, test) == LeavesLeft(b, test) + LeavesLeftAll(ns, test)
    ensures Alive([b] + ns, test) == (if LeavesLeft(b, test) == [] then 0 else 1) + Alive(ns, test)
  {
    hide LeavesLeft;
    assert ([b] + ns)[1..] == ns;
  }

  /** For example, dropping every OR of `(a,b);c` leaves `c`. */
  lemma {:induction false} DroppingAlternatives(a: Bound, b: Bound, c: Bound)
    requires a.BoundComparison? && b.BoundComparison? && c.BoundComparison?
    ensures Rewritten(BoundAnd([BoundOr([a, b]), c]), Dropping((or, ls) => !or)) == c
  {
    hide Dropping, Rewritten, Combined, Meaning;
    var test, whole := (or: bool, ls: seq<Bound>) => !or, BoundAnd([BoundOr([a, b]), c]);
    var r := Rewritten(whole, Dropping(test));
    RewrittenDropsGroups(whole, test, x => true);
    LeftCons(b, [], test);
    LeftCons(a, [b], test);
    LeftCons(c, [], test);
    LeftCons(BoundOr([a, b]), [c], test);
    assert [b] + [] == [b] && [a] + [b] == [a, b] && [c] + [] == [c];
    assert Falls([a, b], true, test) && LeavesLeft(BoundOr([a, b]), test) == [];
    assert [BoundOr([a, b])] + [c] == [BoundOr([a, b]), c];
    assert Leaves(r) == [c];
    if !r.BoundComparison? { TidyHasLeaf(r); }
  }

  // ----- functions that keep meanings -----

  lemma {:induction false} FullIsKnown(b: Bound, holds: Bound -> bool)
    requires Full(b)
    ensures Meaning(b, holds).Known?
  {
    match b
    case BoundAnd(ns) => FullIsKnown(ns[0], holds);
    case BoundOr(ns) => FullIsKnown(ns[0], holds);
    case BoundComparison(_, _, _, _) =>
  }

  /** If `fn` keeps the meaning of what it is given, `Rewrite` keeps the meaning of the tree. On
      trees without nil or short groups only nodes that have a meaning matter. */
  lemma {:induction false} RewritePreservesMeaning(b: Bound, fn: Bound -> Bound, holds: Bound -> bool)
    requires forall x: Bound | Meaning(x, holds).Known? :: Meaning(fn(x), holds) == Meaning(x, holds)
    requires Full(b) || forall x: Bound | Meaning(x, holds).Absent? :: Meaning(fn(x), holds).Absent?
    ensures Meaning(Rewritten(b, fn), holds) == Meaning(b, holds)
  {
    hide Combined, Full;
    if Full(b) { FullIsKnown(b, holds); }
    match b
    case Nil =>
    case BoundAnd(ns) =>
      FullOperands(b);
      RewriteAllPreservesMeaning(ns, false, fn, holds);
      CombinedMeans(RewrittenAll(ns, fn), false, holds);
    case BoundOr(ns) =>
      FullOperands(b);
      RewriteAllPreservesMeaning(ns, true, fn, holds);
      CombinedMeans(RewrittenAll(ns, fn), true, holds);
    case BoundComparison(_, _, _, _) =>
  }

  lemma FullOperands(b: Bound)
    requires b.BoundAnd? || b.BoundOr?
    ensures Full(b) ==> forall m | m in b.nodes :: Full(m)
  {
  }

  lemma {:induction false} RewriteAllPreservesMeaning(ns: seq<Bound>, or: bool, fn: Bound -> Bound,
                                                           holds: Bound -> bool)
    requires forall x: Bound | Meaning(x, holds).Known? :: Meaning(fn(x), holds) == Meaning(x, holds)
    requires
      || (forall m | m in ns :: Full(m))
      || forall x: Bound | Meaning(x, holds).Absent? :: Meaning(fn(x), holds).Absent?
    ensures GroupMeaning(RewrittenAll(ns, fn), or, holds) == GroupMeaning(ns, or, holds)
  {
    hide Rewritten, Meaning, Full;
    if ns != [] {
      RewritePreservesMeaning(ns[0], fn, holds);
      RewriteAllPreservesMeaning(ns[1..], or, fn, holds);
      assert RewrittenAll(ns, fn)[1..] == RewrittenAll(ns[1..], fn);
    }
  }
}
