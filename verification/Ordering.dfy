/** strings.Join and sort.Strings. Go compares strings byte by byte; on UTF-8 that is the
    lexicographic order on code points, which `Leq` is. */
module Ordering {

  predicate Leq(a: string, b: string) {
    a == "" || (b != "" && (a[0] < b[0] || (a[0] == b[0] && Leq(a[1..], b[1..]))))
  }

  /** The strings agree up to position `k`, and there the first one is smaller. */
  ghost predicate SmallerAt(a: string, b: string, k: nat) {
    k < |a| && k < |b| && a[k] < b[k] && forall i | 0 <= i < k :: a[i] == b[i]
  }

  ghost predicate IsPrefix(a: string, b: string) {
    |a| <= |b| && forall i | 0 <= i < |a| :: a[i] == b[i]
  }

  /** The order of strings: a prefix comes first, and otherwise the first difference decides. */
  lemma {:induction false} LeqIsLexicographic(a: string, b: string)
    ensures Leq(a, b) <==> IsPrefix(a, b) || exists k: nat :: SmallerAt(a, b, k)
  {
    if a != "" && b != "" && a[0] == b[0] {
      var c, d := a[1..], b[1..];
      LeqIsLexicographic(c, d);
      assert IsPrefix(a, b) <==> IsPrefix(c, d) by {
        if IsPrefix(a, b) { assert forall i | 0 <= i < |c| :: c[i] == a[i + 1] && d[i] == b[i + 1]; }
        if IsPrefix(c, d) { assert forall i | 1 <= i < |a| :: a[i] == c[i - 1] && b[i] == d[i - 1]; }
      }
      if k: nat :| SmallerAt(c, d, k) {
        assert forall i | 1 <= i <= k + 1 :: a[i] == c[i - 1] && b[i] == d[i - 1];
        assert SmallerAt(a, b, k + 1);
      }
      if k: nat :| SmallerAt(a, b, k) {
        assert k > 0 && forall i | 0 <= i < k - 1 :: c[i] == a[i + 1] && d[i] == b[i + 1];
        assert SmallerAt(c, d, k - 1);
      }
    } else if a != "" && b != "" && a[0] < b[0] {
      assert SmallerAt(a, b, 0);
    }
  }

  lemma LeqTotal(a: string, b: string)
    ensures Leq(a, b) || Leq(b, a)
  {
  }

  lemma {:induction false} LeqAntisymmetric(a: string, b: string)
    requires Leq(a, b) && Leq(b, a)
    ensures a == b
  {
    if a != "" {
      LeqAntisymmetric(a[1..], b[1..]);
      assert a == [a[0]] + a[1..] && b == [b[0]] + b[1..];
    }
  }

  lemma {:induction false} LeqTransitive(a: string, b: string, c: string)
    requires Leq(a, b) && Leq(b, c)
    ensures Leq(a, c)
  {
    if a != "" && a[0] == b[0] && b[0] == c[0] {
      LeqTransitive(a[1..], b[1..], c[1..]);
    }
  }

  function Join(parts: seq<string>, sep: string): string {
    if |parts| == 0 then ""
    else if |parts| == 1 then parts[0]
    else parts[0] + sep + Join(parts[1..], sep)
  }

  ghost predicate Sorted(ss: seq<string>) {
    forall i, j | 0 <= i < j < |ss| :: Leq(ss[i], ss[j])
  }

  /** Sorting by a key, stably: the reference for every sort in the printer. */
  function InsertBy<T>(key: T -> string, x: T, xs: seq<T>): (r: seq<T>)
    ensures |r| == |xs| + 1
  {
    if xs == [] || Leq(key(x), key(xs[0])) then [x] + xs
    else [xs[0]] + InsertBy(key, x, xs[1..])
  }

  function SortBy<T>(key: T -> string, xs: seq<T>): (r: seq<T>)
    ensures |r| == |xs|
  {
    if xs == [] then [] else InsertBy(key, xs[0], SortBy(key, xs[1..]))
  }

  function Keys<T>(key: T -> string, xs: seq<T>): (r: seq<string>)
    ensures |r| == |xs|
    ensures forall i | 0 <= i < |xs| :: r[i] == key(xs[i])
  {
    seq(|xs|, i requires 0 <= i < |xs| => key(xs[i]))
  }

  function Itself(s: string): string { s }

  function Sort(ss: seq<string>): (r: seq<string>) {
    SortBy(Itself, ss)
  }

  // ----- contents as multisets -----

  function Without<T>(xs: seq<T>, j: nat): (r: seq<T>)
    requires j < |xs|
    ensures |r| == |xs| - 1
    ensures forall i | 0 <= i < j :: r[i] == xs[i]
    ensures forall i | j <= i < |r| :: r[i] == xs[i + 1]
  {
    xs[..j] + xs[j + 1..]
  }

  lemma WithoutIs<T>(xs: seq<T>, j: nat, ys: seq<T>)
    requires j < |xs| && |ys| == |xs| - 1
    requires forall i | 0 <= i < j :: ys[i] == xs[i]
    requires forall i | j <= i < |ys| :: ys[i] == xs[i + 1]
    ensures ys == Without(xs, j)
  {
  }

  lemma WithoutContents<T>(xs: seq<T>, j: nat)
    requires j < |xs|
    ensures multiset(xs) == multiset{xs[j]} + multiset(Without(xs, j))
  {
    assert xs == xs[..j] + [xs[j]] + xs[j + 1..];
  }

  lemma HeadContents<T>(xs: seq<T>)
    requires xs != []
    ensures multiset(xs) == multiset{xs[0]} + multiset(xs[1..])
  {
    assert xs == [xs[0]] + xs[1..];
  }

  /** Taking one equal element off both sides keeps the contents equal. */
  lemma MatchHead<T>(xs: seq<T>, ys: seq<T>) returns (j: nat)
    requires xs != [] && multiset(xs) == multiset(ys)
    ensures j < |ys| && ys[j] == xs[0]
    ensures multiset(xs[1..]) == multiset(Without(ys, j))
  {
    HeadContents(xs);
    assert xs[0] in multiset(ys);
    j :| 0 <= j < |ys| && ys[j] == xs[0];
    WithoutContents(ys, j);
    var a, m, n := multiset{xs[0]}, multiset(xs[1..]), multiset(Without(ys, j));
    assert m == (a + m) - a && n == (a + n) - a;
  }

  // ----- what sorting keeps -----

  lemma {:induction false} InsertByContents<T>(key: T -> string, x: T, xs: seq<T>)
    ensures multiset(InsertBy(key, x, xs)) == multiset{x} + multiset(xs)
  {
    if !(xs == [] || Leq(key(x), key(xs[0]))) {
      InsertByContents(key, x, xs[1..]);
      assert xs == [xs[0]] + xs[1..];
    }
  }

  lemma {:induction false} SortByContents<T>(key: T -> string, xs: seq<T>)
    ensures multiset(SortBy(key, xs)) == multiset(xs)
  {
    if xs != [] {
      SortByContents(key, xs[1..]);
      InsertByContents(key, xs[0], SortBy(key, xs[1..]));
      assert xs == [xs[0]] + xs[1..];
    }
  }

  /** Membership form of the same fact. */
  lemma SortByMembers<T>(key: T -> string, xs: seq<T>)
    ensures forall x :: x in SortBy(key, xs) <==> x in xs
  {
    SortByContents(key, xs);
    forall x ensures x in SortBy(key, xs) <==> x in xs {
      assert x in SortBy(key, xs) <==> x in multiset(SortBy(key, xs));
      assert x in xs <==> x in multiset(xs);
    }
  }

  /** A sorted list stays sorted behind an element no larger than any of its own. */
  lemma PrependSorted<T>(key: T -> string, x: T, xs: seq<T>)
    requires Sorted(Keys(key, xs))
    requires forall y | y in xs :: Leq(key(x), key(y))
    ensures Sorted(Keys(key, [x] + xs))
  {
    var tail, ks := Keys(key, xs), Keys(key, [x] + xs);
    forall i, j | 0 <= i < j < |ks| ensures Leq(ks[i], ks[j]) {
      assert ks[j] == key(xs[j - 1]) == tail[j - 1];
      if i == 0 {
        assert xs[j - 1] in xs;
      } else {
        assert ks[i] == tail[i - 1];
      }
    }
  }

  lemma SortedHead<T>(key: T -> string, xs: seq<T>)
    requires xs != [] && Sorted(Keys(key, xs))
    ensures Sorted(Keys(key, xs[1..]))
    ensures forall y | y in xs[1..] :: Leq(key(xs[0]), key(y))
  {
    var ks, tail := Keys(key, xs), Keys(key, xs[1..]);
    assert forall i | 0 <= i < |tail| :: tail[i] == ks[i + 1];
    forall y | y in xs[1..] ensures Leq(key(xs[0]), key(y)) {
      var k :| 1 <= k < |xs| && xs[k] == y;
      assert Leq(ks[0], ks[k]);
    }
  }

  lemma {:induction false} InsertByMembers<T>(key: T -> string, x: T, xs: seq<T>)
    ensures forall y | y in InsertBy(key, x, xs) :: y == x || y in xs
  {
    if !(xs == [] || Leq(key(x), key(xs[0]))) {
      InsertByMembers(key, x, xs[1..]);
    }
  }

  lemma {:induction false} InsertBySorted<T>(key: T -> string, x: T, xs: seq<T>)
    requires Sorted(Keys(key, xs))
    ensures Sorted(Keys(key, InsertBy(key, x, xs)))
  {
    if xs != [] {
      SortedHead(key, xs);
      if Leq(key(x), key(xs[0])) {
        forall y | y in xs ensures Leq(key(x), key(y)) {
          if y != xs[0] {
            assert y in xs[1..];
            LeqTransitive(key(x), key(xs[0]), key(y));
          }
        }
        PrependSorted(key, x, xs);
      } else {
        LeqTotal(key(x), key(xs[0]));
        InsertBySorted(key, x, xs[1..]);
        InsertByMembers(key, x, xs[1..]);
        PrependSorted(key, xs[0], InsertBy(key, x, xs[1..]));
      }
    }
  }

  lemma {:induction false} SortBySorted<T>(key: T -> string, xs: seq<T>)
    ensures Sorted(Keys(key, SortBy(key, xs)))
  {
    if xs != [] {
      SortBySorted(key, xs[1..]);
      InsertBySorted(key, xs[0], SortBy(key, xs[1..]));
    }
  }

  lemma SortedHeadIsLeast(ss: seq<string>, x: string)
    requires Sorted(ss) && x in ss
    ensures Leq(ss[0], x)
  {
    var i :| 0 <= i < |ss| && ss[i] == x;
    if i == 0 { LeqTotal(x, x); }
  }

  lemma HeadAndTail(ss: seq<string>)
    requires ss != []
    ensures ss[0] in multiset(ss)
    ensures multiset(ss[1..]) == multiset(ss) - multiset{ss[0]}
    ensures Sorted(ss) ==> Sorted(ss[1..])
  {
    assert ss == [ss[0]] + ss[1..];
  }

  lemma SameMembers(a: seq<string>, b: seq<string>)
    requires multiset(a) == multiset(b)
    ensures forall x :: x in a <==> x in b
  {
    forall x ensures x in a <==> x in b {
      assert x in a <==> x in multiset(a);
      assert x in b <==> x in multiset(b);
    }
  }

  lemma SortedHeadsEqual(a: seq<string>, b: seq<string>)
    requires Sorted(a) && Sorted(b) && a != [] && b != []
    requires multiset(a) == multiset(b)
    ensures a[0] == b[0]
  {
    hide Leq, Sorted;
    SameMembers(a, b);
    SortedHeadIsLeast(a, b[0]);
    SortedHeadIsLeast(b, a[0]);
    LeqAntisymmetric(a[0], b[0]);
  }

  /** Two sorted arrangements of the same strings are the same sequence. */
  lemma {:induction false} SortedUnique(a: seq<string>, b: seq<string>)
    requires Sorted(a) && Sorted(b)
    requires multiset(a) == multiset(b)
    ensures a == b
  {
    hide Leq, Sorted;
    assert |a| == |multiset(a)| == |multiset(b)| == |b|;
    if a != [] {
      SortedHeadsEqual(a, b);
      HeadAndTail(a);
      HeadAndTail(b);
      SortedUnique(a[1..], b[1..]);
      assert a == [a[0]] + a[1..] && b == [b[0]] + b[1..];
    }
  }

  lemma KeysItself(ss: seq<string>)
    ensures Keys(Itself, ss) == ss
  {
  }

  /** `Sort` is the sorted permutation of its argument. */
  lemma SortIsSortedPermutation(ss: seq<string>)
    ensures Sorted(Sort(ss)) && multiset(Sort(ss)) == multiset(ss)
  {
    SortBySorted(Itself, ss);
    KeysItself(Sort(ss));
    SortByContents(Itself, ss);
  }

  /** Sorting forgets the order it was given. */
  lemma SortForgetsOrder(a: seq<string>, b: seq<string>)
    requires multiset(a) == multiset(b)
    ensures Sort(a) == Sort(b)
  {
    SortIsSortedPermutation(a);
    SortIsSortedPermutation(b);
    SortedUnique(Sort(a), Sort(b));
  }

  lemma {:induction false} KeysInsertBy<T>(key: T -> string, x: T, xs: seq<T>)
    ensures Keys(key, InsertBy(key, x, xs)) == InsertBy(Itself, key(x), Keys(key, xs))
  {
    if xs == [] || Leq(key(x), key(xs[0])) {
      assert Keys(key, [x] + xs) == [key(x)] + Keys(key, xs);
    } else {
      KeysInsertBy(key, x, xs[1..]);
      assert Keys(key, xs)[0] == key(xs[0]) && Keys(key, xs)[1..] == Keys(key, xs[1..]);
      var rest := InsertBy(key, x, xs[1..]);
      assert Keys(key, [xs[0]] + rest) == [key(xs[0])] + Keys(key, rest);
    }
  }

  /** Sorting values by their rendering, then rendering, is sorting the renderings. */
  lemma {:induction false} KeysSortBy<T>(key: T -> string, xs: seq<T>)
    ensures Keys(key, SortBy(key, xs)) == Sort(Keys(key, xs))
  {
    if xs != [] {
      KeysSortBy(key, xs[1..]);
      KeysInsertBy(key, xs[0], SortBy(key, xs[1..]));
      assert Keys(key, xs)[1..] == Keys(key, xs[1..]);
    }
  }

  // ----- sort.Strings, in place -----

  /** Swapping two neighbours keeps the contents. */
  lemma SwapKeepsContents(ss: seq<string>, k: nat)
    requires k + 1 < |ss|
    ensures multiset(ss[k := ss[k + 1]][k + 1 := ss[k]]) == multiset(ss)
  {
    var a, b, c, d := ss[..k], [ss[k]], [ss[k + 1]], ss[k + 2..];
    var swapped := ss[k := ss[k + 1]][k + 1 := ss[k]];
    assert ss == a + (b + c) + d;
    assert swapped == a + (c + b) + d;
    assert multiset(ss) == multiset(a) + (multiset(b) + multiset(c)) + multiset(d);
  }

  /** Sorted except that position `j` has not met the part on its left yet. */
  ghost predicate SortedExcept(ss: seq<string>, j: nat) {
    forall p, q | 0 <= p < q < |ss| && q != j :: Leq(ss[p], ss[q])
  }

  lemma SwapKeepsSortedExcept(ss: seq<string>, j: nat)
    requires 0 < j < |ss| && SortedExcept(ss, j) && !Leq(ss[j - 1], ss[j])
    ensures SortedExcept(ss[j - 1 := ss[j]][j := ss[j - 1]], j - 1)
  {
    var t := ss[j - 1 := ss[j]][j := ss[j - 1]];
    LeqTotal(ss[j - 1], ss[j]);
    forall p, q | 0 <= p < q < |t| && q != j - 1 ensures Leq(t[p], t[q]) {
      if q == j && p != j - 1 {
        assert Leq(ss[p], ss[j - 1]);
      }
    }
  }

  lemma SettledIsSorted(ss: seq<string>, j: nat)
    requires j < |ss| && SortedExcept(ss, j) && (j == 0 || Leq(ss[j - 1], ss[j]))
    ensures Sorted(ss)
  {
    forall p, q | 0 <= p < q < |ss| ensures Leq(ss[p], ss[q]) {
      if q == j && p < j - 1 {
        LeqTransitive(ss[p], ss[j - 1], ss[j]);
      }
    }
  }

  lemma NewElementIsOnlyException(ss: seq<string>, i: nat)
    requires i < |ss| && Sorted(ss[..i])
    ensures SortedExcept(ss[..i + 1], i)
  {
    forall p, q | 0 <= p < q < i ensures Leq(ss[p], ss[q]) {
      assert ss[p] == ss[..i][p] && ss[q] == ss[..i][q];
    }
  }

  /** One step of the inner loop on the array, stated on its contents. */
  method SwapWithLeft(a: array<string>, j: nat, ghost i: nat)
    requires 0 < j <= i < a.Length
    requires SortedExcept(a[..i + 1], j) && !Leq(a[j - 1], a[j])
    modifies a
    ensures a[..] == old(a[..])[j - 1 := old(a[j])][j := old(a[j - 1])]
    ensures SortedExcept(a[..i + 1], j - 1)
    ensures multiset(a[..]) == multiset(old(a[..]))
  {
    ghost var before, part := a[..], a[..i + 1];
    a[j - 1], a[j] := a[j], a[j - 1];
    SwapKeepsContents(before, j - 1);
    SwapKeepsSortedExcept(part, j);
    assert a[..] == before[j - 1 := before[j]][j := before[j - 1]];
    assert a[..i + 1] == part[j - 1 := part[j]][j := part[j - 1]];
  }

  method SortStrings(a: array<string>)
    modifies a
    ensures a[..] == Sort(old(a[..]))
  {
    ghost var was := a[..];
    var i := 0;
    while i < a.Length
      invariant 0 <= i <= a.Length
      invariant Sorted(a[..i])
      invariant multiset(a[..]) == multiset(was)
    {
      var j := i;
      NewElementIsOnlyException(a[..], i);
      assert a[..][..i] == a[..i] && a[..][..i + 1] == a[..i + 1];
      while 0 < j && !Leq(a[j - 1], a[j])
        invariant 0 <= j <= i
        invariant SortedExcept(a[..i + 1], j)
        invariant multiset(a[..]) == multiset(was)
      {
        SwapWithLeft(a, j, i);
        j := j - 1;
      }
      SettledIsSorted(a[..i + 1], j);
      i := i + 1;
    }
    assert a[..a.Length] == a[..];
    SortIsSortedPermutation(was);
    SortedUnique(a[..], Sort(was));
  }
}
