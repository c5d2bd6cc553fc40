/** The canonical printer (rsql/canonical.go): `Canon` is the string it builds; the methods
    build it the way the source does, appending to a shared builder and sorting in place. */
module Canonicals {
  import opened Runes
  import opened Ordering
  import opened Numbers
  import opened Schemas

  /** fmt's %v. */
  function Text(v: Value): string {
    match v
    case Str(s) => s
    case Int(i) => FormatInt(i)
    case Bool(b) => FormatBool(b)
  }

  predicate NeedsQuotes(s: string) {
    HasReserved(s) || ' ' in s || '\t' in s || '\n' in s
  }

  function Escape(s: string): string {
    if s == "" then ""
    else (if s[0] == '\\' then "\\\\" else if s[0] == '"' then "\\\"" else [s[0]]) + Escape(s[1..])
  }

  function LiteralText(s: string): string {
    if NeedsQuotes(s) then "\"" + Escape(s) + "\"" else s
  }

  function Literal(v: Value): string {
    LiteralText(Text(v))
  }

  function Canon(b: Bound): string {
    match b
    case Nil => ""
    case BoundAnd(ns) => "(" + Join(Sort(CanonAll(ns)), ";") + ")"
    case BoundOr(ns) => "(" + Join(Sort(CanonAll(ns)), ",") + ")"
    case BoundComparison(selector, _, op, values) =>
      selector + op.Text() +
      if |values| == 1 then Literal(values[0]) else "(" + Join(Sort(Keys(Literal, values)), ",") + ")"
  }

  function CanonAll(ns: seq<Bound>): (r: seq<string>)
    ensures |r| == |ns|
    ensures forall i | 0 <= i < |ns| :: r[i] == Canon(ns[i])
  {
    seq(|ns|, i requires 0 <= i < |ns| => Canon(ns[i]))
  }

  // ----- the printer -----

  class StringBuilder {
    var text: string

    constructor ()
      ensures text == ""
    {
      text := "";
    }

    method WriteString(s: string)
      modifies this
      ensures text == old(text) + s
    {
      text := text + s;
    }
  }

  lemma AppendedInThree(was: string, a: string, b: string, c: string)
    ensures was + a + b + c == was + (a + b + c)
  {
  }

  method Canonical(b: Bound) returns (s: string)
    ensures s == Canon(b)
    decreases b, 2
  {
    var sb := new StringBuilder();
    WriteCanonical(sb, b);
    s := sb.text;
    assert "" + Canon(b) == Canon(b);
  }

  method WriteCanonical(sb: StringBuilder, b: Bound)
    modifies sb
    ensures sb.text == old(sb.text) + Canon(b)
    decreases b, 1
  {
    hide Sort, Join, Literal, CanonAll;
    match b {
      case Nil =>
      case BoundAnd(ns) =>
        WriteGroup(sb, ";", ns);
      case BoundOr(ns) =>
        WriteGroup(sb, ",", ns);
      case BoundComparison(selector, _, op, values) =>
        ghost var was := sb.text;
        sb.WriteString(selector);
        sb.WriteString(op.Text());
        if |values| == 1 {
          sb.WriteString(Literal(values[0]));
          AppendedInThree(was, selector, op.Text(), Literal(values[0]));
          return;
        }
        var vals := new string[|values|];
        for i := 0 to |values|
          invariant sb.text == was + selector + op.Text()
          invariant forall k | 0 <= k < i :: vals[k] == Literal(values[k])
        {
          vals[i] := Literal(values[i]);
        }
        assert vals[..] == Keys(Literal, values);
        SortStrings(vals);
        var printed := "(" + Join(vals[..], ",") + ")";
        sb.WriteString(printed);
        AppendedInThree(was, selector, op.Text(), printed);
    }
  }

  method WriteGroup(sb: StringBuilder, sep: string, ns: seq<Bound>)
    modifies sb
    ensures sb.text == old(sb.text) + ("(" + Join(Sort(CanonAll(ns)), sep) + ")")
    decreases ns, 0
  {
    var parts := new string[|ns|];
    for i := 0 to |ns|
      invariant sb.text == old(sb.text)
      invariant forall k | 0 <= k < i :: parts[k] == Canon(ns[k])
    {
      var part := Canonical(ns[i]);
      parts[i] := part;
    }
    assert parts[..] == CanonAll(ns);
    SortStrings(parts);
    sb.WriteString("(" + Join(parts[..], sep) + ")");
  }

  // ----- normal form -----

  /** The same printer without the sorting. */
  function Print(b: Bound): string {
    match b
    case Nil => ""
    case BoundAnd(ns) => "(" + Join(PrintAll(ns), ";") + ")"
    case BoundOr(ns) => "(" + Join(PrintAll(ns), ",") + ")"
    case BoundComparison(selector, _, op, values) =>
      selector + op.Text() +
      if |values| == 1 then Literal(values[0]) else "(" + Join(Keys(Literal, values), ",") + ")"
  }

  function PrintAll(ns: seq<Bound>): (r: seq<string>)
    ensures |r| == |ns|
    ensures forall i | 0 <= i < |ns| :: r[i] == Print(ns[i])
  {
    seq(|ns|, i requires 0 <= i < |ns| => Print(ns[i]))
  }

  /** The tree with operands and values sorted at every level. */
  function Normal(b: Bound): Bound {
    match b
    case Nil => Nil
    case BoundAnd(ns) => BoundAnd(SortBy(Canon, NormalAll(ns)))
    case BoundOr(ns) => BoundOr(SortBy(Canon, NormalAll(ns)))
    case BoundComparison(_, _, _, values) => b.(values := SortBy(Literal, values))
  }

  function NormalAll(ns: seq<Bound>): (r: seq<Bound>)
    ensures |r| == |ns|
    ensures forall i | 0 <= i < |ns| :: r[i] == Normal(ns[i])
  {
    seq(|ns|, i requires 0 <= i < |ns| => Normal(ns[i]))
  }

  lemma SortedOnceIsSorted<T>(key: T -> string, xs: seq<T>)
    ensures Sort(Keys(key, SortBy(key, xs))) == Sort(Keys(key, xs))
  {
    KeysSortBy(key, xs);
    SortIsSortedPermutation(Keys(key, xs));
    SortForgetsOrder(Sort(Keys(key, xs)), Keys(key, xs));
  }

  lemma SingletonSorted<T>(key: T -> string, xs: seq<T>)
    requires |xs| == 1
    ensures SortBy(key, xs) == xs
  {
    assert xs[1..] == [];
  }

  /** Normalizing does not change the canonical string. */
  lemma {:induction false} NormalKeepsCanon(b: Bound)
    ensures Canon(Normal(b)) == Canon(b)
  {
    hide Sort, SortBy, Join;
    match b
    case Nil =>
    case BoundAnd(ns) => NormalKeepsCanonAll(ns);
    case BoundOr(ns) => NormalKeepsCanonAll(ns);
    case BoundComparison(_, _, _, values) =>
      SortedOnceIsSorted(Literal, values);
      if |values| == 1 { SingletonSorted(Literal, values); }
  }

  lemma {:induction false} NormalKeepsCanonAll(ns: seq<Bound>)
    ensures Sort(CanonAll(SortBy(Canon, NormalAll(ns)))) == Sort(CanonAll(ns))
  {
    hide Sort, SortBy, Normal, Canon;
    forall i | 0 <= i < |ns| ensures CanonAll(NormalAll(ns))[i] == CanonAll(ns)[i] {
      NormalKeepsCanon(ns[i]);
    }
    var sorted := SortBy(Canon, NormalAll(ns));
    assert CanonAll(sorted) == Keys(Canon, sorted);
    assert CanonAll(ns) == Keys(Canon, NormalAll(ns));
    SortedOnceIsSorted(Canon, NormalAll(ns));
  }

  /** The canonical string is the plain print of the normal form. */
  lemma {:induction false} CanonPrintsNormal(b: Bound)
    ensures Print(Normal(b)) == Canon(b)
  {
    hide Sort, SortBy, Join;
    match b
    case Nil =>
    case BoundAnd(ns) => CanonPrintsNormalAll(ns);
    case BoundOr(ns) => CanonPrintsNormalAll(ns);
    case BoundComparison(_, _, _, values) =>
      KeysSortBy(Literal, values);
      if |values| == 1 { SingletonSorted(Literal, values); }
  }

  lemma {:induction false} CanonPrintsNormalAll(ns: seq<Bound>)
    ensures PrintAll(SortBy(Canon, NormalAll(ns))) == Sort(CanonAll(ns))
  {
    hide Sort, SortBy, Normal, Canon, Print;
    var sorted := SortBy(Canon, NormalAll(ns));
    forall i | 0 <= i < |ns| ensures CanonAll(NormalAll(ns))[i] == CanonAll(ns)[i] {
      NormalKeepsCanon(ns[i]);
    }
    SortByMembers(Canon, NormalAll(ns));
    forall i | 0 <= i < |sorted| ensures PrintAll(sorted)[i] == Keys(Canon, sorted)[i] {
      assert sorted[i] in NormalAll(ns);
      var k :| 0 <= k < |ns| && NormalAll(ns)[k] == sorted[i];
      CanonPrintsNormal(ns[k]);
      NormalKeepsCanon(ns[k]);
    }
    assert PrintAll(sorted) == Keys(Canon, sorted);
    assert CanonAll(ns) == Keys(Canon, NormalAll(ns));
    KeysSortBy(Canon, NormalAll(ns));
  }

  // ----- equality up to order -----

  /** Equal up to permuting operands at every depth and values in every list. */
  ghost predicate Same(b: Bound, c: Bound) {
    match b
    case Nil => c == Nil
    case BoundAnd(ns) => c.BoundAnd? && SameAll(ns, c.nodes)
    case BoundOr(ns) => c.BoundOr? && SameAll(ns, c.nodes)
    case BoundComparison(selector, field, op, values) =>
      && c.BoundComparison? && c.selector == selector && c.field == field && c.op == op
      && multiset(c.values) == multiset(values)
  }

  ghost predicate SameAll(bs: seq<Bound>, cs: seq<Bound>) {
    if bs == [] then cs == []
    else exists j :: 0 <= j < |cs| && Same(bs[0], cs[j]) && SameAll(bs[1..], Without(cs, j))
  }

  lemma {:induction false} KeysContents<T>(key: T -> string, xs: seq<T>, ys: seq<T>)
    requires multiset(xs) == multiset(ys)
    ensures multiset(Keys(key, xs)) == multiset(Keys(key, ys))
  {
    if xs == [] {
      assert |ys| == |multiset(ys)| == 0;
    } else {
      var j := MatchHead(xs, ys);
      KeysContents(key, xs[1..], Without(ys, j));
      assert Keys(key, Without(ys, j)) == Without(Keys(key, ys), j);
      WithoutContents(Keys(key, ys), j);
      HeadContents(Keys(key, xs));
      assert Keys(key, xs)[1..] == Keys(key, xs[1..]);
    }
  }

  /** Order independence: trees equal up to order have one canonical string. */
  lemma {:induction false} SameGivesEqualCanon(b: Bound, c: Bound)
    requires Same(b, c)
    ensures Canon(b) == Canon(c)
    decreases b
  {
    hide Sort, Join;
    match b
    case Nil =>
    case BoundAnd(ns) =>
      SameAllGivesEqualContents(ns, c.nodes);
      SortForgetsOrder(CanonAll(ns), CanonAll(c.nodes));
    case BoundOr(ns) =>
      SameAllGivesEqualContents(ns, c.nodes);
      SortForgetsOrder(CanonAll(ns), CanonAll(c.nodes));
    case BoundComparison(_, _, _, values) =>
      KeysContents(Literal, values, c.values);
      SortForgetsOrder(Keys(Literal, values), Keys(Literal, c.values));
      assert |values| == |multiset(values)| == |c.values|;
      if |values| == 1 { assert values[0] in multiset(c.values); }
  }

  lemma CanonAllWithout(cs: seq<Bound>, j: nat)
    requires j < |cs|
    ensures multiset(CanonAll(cs)) == multiset{Canon(cs[j])} + multiset(CanonAll(Without(cs, j)))
  {
    hide Canon;
    WithoutIs(CanonAll(cs), j, CanonAll(Without(cs, j)));
    WithoutContents(CanonAll(cs), j);
  }

  lemma {:induction false} SameAllGivesEqualContents(bs: seq<Bound>, cs: seq<Bound>)
    requires SameAll(bs, cs)
    ensures multiset(CanonAll(bs)) == multiset(CanonAll(cs))
    decreases bs
  {
    hide Canon, Same, CanonAll;
    if bs == [] {
      assert CanonAll(bs) == CanonAll(cs);
    } else {
      var j :| 0 <= j < |cs| && Same(bs[0], cs[j]) && SameAll(bs[1..], Without(cs, j));
      SameGivesEqualCanon(bs[0], cs[j]);
      SameAllGivesEqualContents(bs[1..], Without(cs, j));
      CanonAllWithout(cs, j);
      CanonAllWithout(bs, 0);
      assert Without(bs, 0) == bs[1..];
    }
  }

  /** Trees with one normal form are equal up to order. */
  lemma {:induction false} EqualNormalGivesSame(b: Bound, c: Bound)
    requires Normal(b) == Normal(c)
    ensures Same(b, c)
    decreases b
  {
    hide SortBy, Canon;
    match b
    case Nil =>
    case BoundAnd(ns) =>
      SortByContents(Canon, NormalAll(ns));
      SortByContents(Canon, NormalAll(c.nodes));
      EqualNormalGivesSameAll(ns, c.nodes);
    case BoundOr(ns) =>
      SortByContents(Canon, NormalAll(ns));
      SortByContents(Canon, NormalAll(c.nodes));
      EqualNormalGivesSameAll(ns, c.nodes);
    case BoundComparison(_, _, _, values) =>
      SortByContents(Literal, values);
      SortByContents(Literal, c.values);
  }

  lemma NormalAllWithout(cs: seq<Bound>, j: nat)
    requires j < |cs|
    ensures NormalAll(Without(cs, j)) == Without(NormalAll(cs), j)
  {
    hide Normal;
    WithoutIs(NormalAll(cs), j, NormalAll(Without(cs, j)));
  }

  lemma {:induction false} EqualNormalGivesSameAll(bs: seq<Bound>, cs: seq<Bound>)
    requires multiset(NormalAll(bs)) == multiset(NormalAll(cs))
    ensures SameAll(bs, cs)
    decreases bs
  {
    hide Normal, Same;
    assert |bs| == |multiset(NormalAll(bs))| == |cs|;
    if bs != [] {
      var j := MatchHead(NormalAll(bs), NormalAll(cs));
      EqualNormalGivesSame(bs[0], cs[j]);
      NormalAllWithout(cs, j);
      assert NormalAll(bs)[1..] == NormalAll(bs[1..]);
      EqualNormalGivesSameAll(bs[1..], Without(cs, j));
    }
  }
}
