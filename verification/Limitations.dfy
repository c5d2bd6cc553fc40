/** Accepted filters for which the code does not do what its comments say: canonical forms that
    are no RSQL (rsql/canonical.go:54-55), that are RSQL for another filter
    (rsql/canonical.go:28-29) or that two different filters share (rsql/canonical.go:10-12), and
    a rewrite that applies its function twice (rsql/tree.go:44). */
module Limitations {
  import opened Results
  import opened Runes
  import opened Ordering
  import opened Numbers
  import opened Syntax
  import opened Lexing
  import opened Parsing
  import opened Spelling
  import opened Schemas
  import opened Canonicals
  import opened Literals
  import opened Echoes
  import opened RoundTrips
  import opened Rebinding
  import opened Validity
  import opened Decoding
  import opened Trees
  import opened Mongo
  import opened Selection

  const TEXT_SCHEMA: Schema := map["a" := Field("", KindString, [], [])]

  // ----- one equality, its value in some spelling -----

  lemma {:induction false} EqualityParses(v: string, style: Style)
    requires PieceOk(Piece("", TokValue(v), style))
    ensures ParseText("a==" + Spell(TokValue(v), style)) == Ok(Comparison("a", OpEq, [v]))
  {
    hide ParseText, PieceOk, Spell;
    ComparisonParses("a", "==", OpEq, v, style);
    assert "a" + ("==" + Spell(TokValue(v), style)) == "a==" + Spell(TokValue(v), style);
  }

  function EqualityLeaf(v: string): Bound {
    BoundComparison("a", FieldOf("a", TEXT_SCHEMA), OpEq, [Str(v)])
  }

  lemma {:induction false} EqualityBinds(v: string, style: Style)
    requires PieceOk(Piece("", TokValue(v), style))
    ensures BindText("a==" + Spell(TokValue(v), style), TEXT_SCHEMA, UNLIMITED) == Ok(EqualityLeaf(v))
  {
    hide ParseText, Spell;
    EqualityParses(v, style);
    var r := BindText("a==" + Spell(TokValue(v), style), TEXT_SCHEMA, UNLIMITED);
    assert r.Ok? && r.value.values == [Str(v)];
  }

  /** The value in double quotes. */
  function QuotedEquality(v: string): string {
    "a==" + ("\"" + Escape(v) + "\"")
  }

  lemma {:induction false} QuotedEqualityBinds(v: string)
    ensures BindText(QuotedEquality(v), TEXT_SCHEMA, UNLIMITED) == Ok(EqualityLeaf(v))
  {
    hide BindText, Escape, SpellInQuotes;
    EscapeSpells(v);
    EqualityBinds(v, InQuotes('"', []));
  }

  /** The whole failing family of values: each unsafe text can be filtered for, and the
      canonical form of that filter does not come back as it. */
  lemma {:induction false} UnsafeValuesDoNotRoundTrip(v: string)
    requires !Safe(v)
    ensures BindText(QuotedEquality(v), TEXT_SCHEMA, UNLIMITED) == Ok(EqualityLeaf(v))
    ensures BindText(Canon(EqualityLeaf(v)), TEXT_SCHEMA, UNLIMITED) != Ok(Normal(EqualityLeaf(v)))
  {
    hide BindText, Canon, Normal, Safe, QuotedEquality;
    QuotedEqualityBinds(v);
    assert Str(v) in EqualityLeaf(v).values && Text(Str(v)) == v;
    assert !ReadsBack(EqualityLeaf(v));
    CanonicalRoundTripsIff(QuotedEquality(v), TEXT_SCHEMA, UNLIMITED, EqualityLeaf(v));
  }

  // ----- rejected, or another filter -----

  lemma EqualityIsNormal(v: string)
    ensures Normal(EqualityLeaf(v)) == EqualityLeaf(v)
    ensures Canon(EqualityLeaf(v)) == "a==" + LiteralText(v)
  {
    hide LiteralText;
    SingletonSorted(Literal, [Str(v)]);
    assert "a" + "==" == "a==";
  }

  lemma PlainNameReads()
    ensures !HasReserved("a") && SelectorReads("a").Whole?
  {
    LettersRead("a");
    assert "a"[0..] == "a";
  }

  /** The canonical form of an equality is valid exactly when the literal reads as one value. */
  lemma {:induction false} EqualityValidIff(v: string)
    ensures BindText(QuotedEquality(v), TEXT_SCHEMA, UNLIMITED) == Ok(EqualityLeaf(v))
    ensures ParseText(Canon(EqualityLeaf(v))).Ok? <==> Reads(v, false).Whole?
  {
    hide BindText, ParseText, Canon, Normal, QuotedEquality, Reads;
    QuotedEqualityBinds(v);
    EqualityIsNormal(v);
    PlainNameReads();
    CanonicalParsesIff(QuotedEquality(v), TEXT_SCHEMA, UNLIMITED, EqualityLeaf(v));
    assert Keys(Text, [Str(v)]) == [v];
  }

  /** Three accepted filters whose canonical form is no RSQL: the value is empty, has a space
      inside that the printer does not quote for, or ends in a backslash. */
  lemma {:induction false} RejectedCanonicalForms()
    ensures forall v | v in ["", "x\U{00A0}y", "x\\"] ::
      && BindText(QuotedEquality(v), TEXT_SCHEMA, UNLIMITED) == Ok(EqualityLeaf(v))
      && ParseText(Canon(EqualityLeaf(v))) == Err
  {
    hide BindText, ParseText, Canon, QuotedEquality;
    EqualityValidIff("");
    EqualityValidIff("x\U{00A0}y");
    EqualityValidIff("x\\");
    assert IsSpaces("");
    InnerSpaceIsBroken();
    EndingBackslashDangles();
  }

  lemma InnerSpaceIsBroken()
    ensures Reads("x\U{00A0}y", false).Broken?
  {
    var v := "x\U{00A0}y";
    assert v[0] == 'x' && v[1] == '\U{00A0}' && v[2] == 'y';
    assert v[0..] == v && Bare(v[1..]) == Span("", 0) && Bare(v) == Span("x", 1);
    assert v[1..][1] == 'y';
  }

  lemma EndingBackslashDangles()
    ensures Reads("x\\", false).Dangling?
  {
    var v := "x\\";
    assert v[0] == 'x' && v[1..] == "\\" && v[0..] == v;
  }

  /** A backslash inside is worse than that: the canonical form is accepted as another filter. */
  lemma {:induction false} BackslashReadsAsAnother()
    ensures BindText(QuotedEquality("x\\y"), TEXT_SCHEMA, UNLIMITED) == Ok(EqualityLeaf("x\\y"))
    ensures BindText(Canon(EqualityLeaf("x\\y")), TEXT_SCHEMA, UNLIMITED) == Ok(EqualityLeaf("xy"))
  {
    hide ParseText, Canon, Normal, QuotedEquality, Reads, Readable, ReadNode;
    var b := EqualityLeaf("x\\y");
    QuotedEqualityBinds("x\\y");
    EqualityIsNormal("x\\y");
    BackslashDecodes();
    CanonicalParsesTo(QuotedEquality("x\\y"), TEXT_SCHEMA, UNLIMITED, b);
    var r := BindText(Canon(b), TEXT_SCHEMA, UNLIMITED);
    assert r.Ok? && r.value.values == [Str("xy")];
  }

  lemma BackslashDecodes()
    ensures var b := EqualityLeaf("x\\y"); Readable(b) && ReadNode(b) == Comparison("a", OpEq, ["xy"])
  {
    hide Reads, Decoded;
    PlainNameReads();
    PlainNameDecodes();
    XYDecodes();
    assert Keys(Text, [Str("x\\y")]) == ["x\\y"];
    OneTextPerValue("x\\y");
  }

  lemma XYDecodes()
    ensures Reads("x\\y", false).Whole? && Decoded("x\\y", false) == "xy"
  {
    var v := "x\\y";
    assert v[0] == 'x' && v[1] == '\\' && v[2] == 'y' && v[0..] == v;
    assert v[1..][2..] == "" && v[1..][1] == 'y' && Bare(v[1..]) == Span("y", 2) && Bare(v) == Span("xy", 3);
    assert v[3..] == "";
  }

  lemma PlainNameDecodes()
    ensures SelectorText("a") == "a"
  {
    LettersRead("a");
    assert "a"[0..] == "a";
  }

  /** The smallest rejected one in full: `a==""` prints as `a==`. */
  lemma {:induction false} EmptyValueDoesNotRoundTrip()
    ensures BindText("a==\"\"", TEXT_SCHEMA, UNLIMITED) == Ok(EqualityLeaf(""))
    ensures Canon(EqualityLeaf("")) == "a=="
    ensures BindText("a==", TEXT_SCHEMA, UNLIMITED) == Err
  {
    hide ParseText;
    assert Escape("") == "" && QuotedEquality("") == "a==\"\"";
    EqualityValidIff("");
    EqualityIsNormal("");
    assert IsSpaces("") && Reads("", false).Broken?;
  }

  // ----- lists -----

  function ListLeaf(vs: seq<string>): Bound {
    BoundComparison("a", FieldOf("a", TEXT_SCHEMA), OpIn, Strings(vs))
  }

  function Strings(vs: seq<string>): (r: seq<Value>)
    ensures |r| == |vs| && forall i | 0 <= i < |vs| :: r[i] == Str(vs[i])
  {
    seq(|vs|, i requires 0 <= i < |vs| => Str(vs[i]))
  }

  /** In a list a backslash at the end swallows the ',': two values come back as one. */
  lemma {:induction false} ListSwallowsComma()
    ensures var b := ListLeaf(["x\\", "y"]);
      && Grouped(b) && BindText(QuotedText(b), TEXT_SCHEMA, UNLIMITED) == Ok(b)
      && Canon(b) == "a=in=(x\\,y)"
      && BindText(Canon(b), TEXT_SCHEMA, UNLIMITED) == Ok(ListLeaf(["x,y"]))
  {
    hide BindText, ParseText, QuotedText, Canon, Normal, Readable, ReadNode;
    var b := ListLeaf(["x\\", "y"]);
    assert Conforms(b, TEXT_SCHEMA);
    NoLimits(b);
    EveryFilterHasText(b, TEXT_SCHEMA, UNLIMITED);
    SwallowingListCanon();
    SwallowingListDecodes();
    PlainNameReads();
    CanonicalParsesTo(QuotedText(b), TEXT_SCHEMA, UNLIMITED, b);
    SwallowedListBinds(Canon(b));
  }

  lemma SwallowedListBinds(text: string)
    requires ParseText(text) == Ok(Comparison("a", OpIn, ["x,y"]))
    ensures BindText(text, TEXT_SCHEMA, UNLIMITED) == Ok(ListLeaf(["x,y"]))
  {
    hide ParseText;
    var r := BindText(text, TEXT_SCHEMA, UNLIMITED);
    assert r.Ok? && r.value.values == Strings(["x,y"]);
  }

  lemma SwallowingListCanon()
    ensures Normal(ListLeaf(["x\\", "y"])) == ListLeaf(["x\\", "y"])
    ensures Canon(ListLeaf(["x\\", "y"])) == "a=in=(x\\,y)"
  {
    hide Sort;
    var b, printed := ListLeaf(["x\\", "y"]), ["x\\", "y"];
    assert LiteralText("x\\") == "x\\" && LiteralText("y") == "y";
    assert Keys(Literal, b.values) == printed;
    assert Leq(printed[0], printed[1]);
    SortedIsSort(printed);
    assert Join(printed, ",") == "x\\" + "," + "y" by { assert printed[1..] == ["y"]; }
    SingletonSorted(Literal, [Str("y")]);
    assert b.values[1..] == [Str("y")] && Leq("x\\", "y");
    assert SortBy(Literal, b.values) == b.values;
  }

  lemma SortedIsSort(ss: seq<string>)
    requires Sorted(ss)
    ensures Sort(ss) == ss
  {
    SortIsSortedPermutation(ss);
    SortedUnique(Sort(ss), ss);
  }

  lemma SwallowingListDecodes()
    ensures var b := ListLeaf(["x\\", "y"]); Readable(b) && ReadNode(b) == Comparison("a", OpIn, ["x,y"])
  {
    hide Reads, Decoded, DecodedPart;
    var vs := ["x\\", "y"];
    PlainNameReads();
    PlainNameDecodes();
    EndingBackslashDangles();
    YRunsOn();
    assert Keys(Text, Strings(vs)) == vs && vs[1..] == ["y"];
    assert "" + "x" + "," == "x," && "x," + "y" == "x,y";
    assert ListTexts(["y"], true, "x,") == ["x,y"];
  }

  lemma YRunsOn()
    ensures Reads("y", true).Whole? && Decoded("y", true) == "y"
    ensures DecodedPart("x\\", false) == "x"
  {
    LettersRead("y");
    LettersRead("x");
    assert "x\\"[0..] == "x\\" && "x\\"[..1] == "x" && "x\\"[0] == 'x';
  }

  // ----- enumerations -----

  /** A field of some kind that enumerates one text. */
  function EnumSchema(kind: Kind, raw: string): Schema {
    map["a" := Field("", kind, [], [raw])]
  }

  function EnumLeaf(kind: Kind, raw: string, v: Value): Bound {
    BoundComparison("a", FieldOf("a", EnumSchema(kind, raw)), OpEq, [v])
  }

  /** Enumerations are compared with the text before coercion. So for every text that stands for
      an integer or a bool but is not how that value prints, the field that enumerates it accepts
      it and does not take its own canonical form back. */
  lemma {:induction false} EnumeratedTextsDoNotRoundTrip(kind: Kind, raw: string, v: Value)
    requires Coerce(raw, Field("", kind, [], [raw])) == Ok(v) && Text(v) != raw
    ensures BindText(QuotedEquality(raw), EnumSchema(kind, raw), UNLIMITED) == Ok(EnumLeaf(kind, raw, v))
    ensures var b := EnumLeaf(kind, raw, v); BindText(Canon(b), EnumSchema(kind, raw), UNLIMITED) != Ok(Normal(b))
  {
    hide BindText, Canon, Normal, QuotedEquality;
    var b, s := EnumLeaf(kind, raw, v), EnumSchema(kind, raw);
    EnumBinds(kind, raw, v);
    assert v in b.values && Text(v) !in b.field.accepted;
    assert !ReadsBack(b);
    CanonicalRoundTripsIff(QuotedEquality(raw), s, UNLIMITED, b);
  }

  lemma EnumBinds(kind: Kind, raw: string, v: Value)
    requires Coerce(raw, Field("", kind, [], [raw])) == Ok(v)
    ensures BindText(QuotedEquality(raw), EnumSchema(kind, raw), UNLIMITED) == Ok(EnumLeaf(kind, raw, v))
  {
    hide ParseText, Escape, SpellInQuotes;
    EscapeSpells(raw);
    EqualityParses(raw, InQuotes('"', []));
    var r, s := BindText(QuotedEquality(raw), EnumSchema(kind, raw), UNLIMITED), EnumSchema(kind, raw);
    assert OpEq in Allowed(s["a"]);
    assert Coerce(raw, s["a"]) == Ok(v);
    assert r.Ok? && r.value.values == [v];
  }

  /** For example the integer 7 enumerated as `007`. */
  lemma {:induction false} EnumeratedNumberDoesNotRoundTrip()
    ensures var b, s := EnumLeaf(KindInt, "007", Int(7)), EnumSchema(KindInt, "007");
      && BindText(QuotedEquality("007"), s, UNLIMITED) == Ok(b)
      && BindText(Canon(b), s, UNLIMITED) != Ok(Normal(b))
  {
    hide BindText, Canon, Normal, QuotedEquality;
    ParseSevens();
    assert FormatInt(7) == "7";
    EnumeratedTextsDoNotRoundTrip(KindInt, "007", Int(7));
  }

  lemma ParseSevens()
    ensures ParseInt("007") == Ok(7)
  {
    assert "007"[..2] == "00" && "00"[..1] == "0";
    assert ParseDigits("0") == Ok(0) && ParseDigits("00") == Ok(0) && ParseDigits("007") == Ok(7);
  }

  // ----- selectors with reserved characters -----

  const TEXT_FIELD := Field("", KindString, [], [])

  const CLASH_SCHEMA: Schema := map["a" := TEXT_FIELD, "c" := TEXT_FIELD, "z" := TEXT_FIELD, "a==b;c" := TEXT_FIELD]

  function Equality(key: string, v: string): Bound
    requires key in CLASH_SCHEMA
  {
    BoundComparison(key, FieldOf(key, CLASH_SCHEMA), OpEq, [Str(v)])
  }

  lemma EqualityCanon(key: string, v: string)
    requires key in CLASH_SCHEMA && !NeedsQuotes(v)
    ensures Canon(Equality(key, v)) == Print(Equality(key, v)) == key + "==" + v
  {
  }

  lemma LettersAreBare()
    ensures IsBare("a") && IsBare("b") && IsBare("c") && IsBare("d") && IsBare("e") && IsBare("z")
    ensures !NeedsQuotes("b") && !NeedsQuotes("d") && !NeedsQuotes("e")
  {
  }

  function Pair(): Bound {
    BoundAnd([Equality("a", "b"), Equality("c", "d")])
  }

  /** A filter on the key `a==b;c` prints as a filter on the keys `a` and `c`. */
  lemma {:induction false} RawSelectorReadsAsAnother()
    ensures var b := Equality("a==b;c", "d");
      && Grouped(b) && BindText(QuotedText(b), CLASH_SCHEMA, UNLIMITED) == Ok(b)
      && Canon(b) == "a==b;c==d"
      && BindText(Canon(b), CLASH_SCHEMA, UNLIMITED) == Ok(Pair())
  {
    hide ParseText, QuotedText, Canon, NeedsQuotes, IsBare, Print, PlainSafe, Unbind, Admissible, BindNode;
    var b := Equality("a==b;c", "d");
    LettersAreBare();
    EveryFilterHasText(b, CLASH_SCHEMA, UNLIMITED);
    EqualityCanon("a==b;c", "d");
    EqualityCanon("a", "b");
    EqualityCanon("c", "d");
    PairPrints();
    PairIsSafe();
    SafeRowParses(Pair());
    UnbindRebinds(Pair(), CLASH_SCHEMA);
  }

  lemma PairPrints()
    ensures Join(PrintAll(Pair().nodes), ";") == "a==b;c==d"
  {
    hide Print, NeedsQuotes;
    LettersAreBare();
    EqualityCanon("a", "b");
    EqualityCanon("c", "d");
    var parts := PrintAll(Pair().nodes);
    assert parts[0] == "a" + "==" + "b" == "a==b" && parts[1] == "c" + "==" + "d" == "c==d";
    assert parts == ["a==b", "c==d"] && parts[1..] == ["c==d"];
  }

  lemma PairIsSafe()
    ensures Grouped(Pair()) && AllSymbols(Pair(), PlainSafe)
  {
    hide IsBare;
    LettersAreBare();
    forall m | m in Pair().nodes ensures AllSymbols(m, PlainSafe) {
      EqualityIsSafe(m);
    }
  }

  lemma EqualityIsSafe(m: Bound)
    requires m.BoundComparison? && |m.values| == 1 && IsBare(m.selector) && m.op == OpEq
    requires IsBare(Text(m.values[0]))
    ensures AllSymbols(m, PlainSafe)
  {
    OpSymbolIsPlain(OpEq);
  }

  function SelectorSchema(selector: string): Schema {
    map[selector := TEXT_FIELD]
  }

  function SelectorLeaf(selector: string): Bound {
    BoundComparison(selector, FieldOf(selector, SelectorSchema(selector)), OpEq, [Str("x")])
  }

  /** The whole failing family of selectors: a filter on a key that is not bare is accepted, and
      its canonical form does not come back as it. */
  lemma {:induction false} UnsafeSelectorsDoNotRoundTrip(selector: string)
    requires !IsBare(selector)
    ensures var b, s := SelectorLeaf(selector), SelectorSchema(selector);
      && Grouped(b) && BindText(QuotedText(b), s, UNLIMITED) == Ok(b)
      && BindText(Canon(b), s, UNLIMITED) != Ok(Normal(b))
  {
    hide BindText, QuotedText, Canon, Normal, IsBare;
    var b, s := SelectorLeaf(selector), SelectorSchema(selector);
    assert Conforms(b, s);
    NoLimits(b);
    EveryFilterHasText(b, s, UNLIMITED);
    CanonicalRoundTripsIff(QuotedText(b), s, UNLIMITED, b);
  }

  /** A key with a space in it: `"a b"=="x"` prints as `a b==x`, which is rejected. */
  lemma {:induction false} SpacedSelectorIsRejected()
    ensures var b, s := SelectorLeaf("a b"), SelectorSchema("a b");
      && Grouped(b) && BindText(QuotedText(b), s, UNLIMITED) == Ok(b)
      && ParseText(Canon(b)) == Err
  {
    hide BindText, QuotedText, Canon, ParseText, SelectorReads;
    var b, s := SelectorLeaf("a b"), SelectorSchema("a b");
    assert Conforms(b, s);
    NoLimits(b);
    EveryFilterHasText(b, s, UNLIMITED);
    SpacedNameIsBroken();
    SingletonSorted(Literal, b.values);
    assert Normal(b) == b;
    CanonicalParsesIff(QuotedText(b), s, UNLIMITED, b);
  }

  lemma SpacedNameIsBroken()
    ensures !HasReserved("a b") && SelectorReads("a b").Broken?
  {
    var v := "a b";
    assert v[0] == 'a' && v[1] == ' ' && v[2] == 'b' && v[0..] == v;
    assert Bare(v[1..]) == Span("", 0) && Bare(v) == Span("a", 1) && v[1..][1] == 'b';
  }

  // ----- one cache key for two filters -----

  function ClashLeft(): Bound {
    BoundAnd([Equality("a==b;c", "d"), Equality("z", "e")])
  }

  function ClashRight(): Bound {
    BoundAnd([Equality("a", "b"), Equality("c", "d"), Equality("z", "e")])
  }

  const CLASH_RECORD: Record := map["a==b;c" := One(Str("d")), "z" := One(Str("e"))]

  lemma ClashOperands()
    ensures CanonAll(ClashLeft().nodes) == ["a==b;c==d", "z==e"]
    ensures CanonAll(ClashRight().nodes) == ["a==b", "c==d", "z==e"]
  {
    hide Canon, NeedsQuotes, Equality;
    LettersAreBare();
    EqualityCanon("a==b;c", "d");
    EqualityCanon("a", "b");
    EqualityCanon("c", "d");
    EqualityCanon("z", "e");
    assert "a==b;c" + "==" + "d" == "a==b;c==d" && "z" + "==" + "e" == "z==e";
    assert "a" + "==" + "b" == "a==b" && "c" + "==" + "d" == "c==d";
  }

  lemma ClashSorted()
    ensures Sorted(["a==b;c==d", "z==e"]) && Sorted(["a==b", "c==d", "z==e"])
  {
    var left, right := ["a==b;c==d", "z==e"], ["a==b", "c==d", "z==e"];
    assert Leq(left[0], left[1]) && Leq(right[0], right[1]) && Leq(right[1], right[2]) && Leq(right[0], right[2]);
  }

  lemma ClashJoined()
    ensures Join(["a==b;c==d", "z==e"], ";") == "a==b;c==d;z==e"
    ensures Join(["a==b", "c==d", "z==e"], ";") == "a==b;c==d;z==e"
  {
    assert ["a==b;c==d", "z==e"][1..] == ["z==e"] && ["c==d", "z==e"][1..] == ["z==e"];
    assert ["a==b", "c==d", "z==e"][1..] == ["c==d", "z==e"];
    assert Join(["c==d", "z==e"], ";") == "c==d;z==e";
  }

  lemma ClashCanons()
    ensures Canon(ClashLeft()) == "(a==b;c==d;z==e)" && Canon(ClashRight()) == "(a==b;c==d;z==e)"
  {
    hide Sort, Join, CanonAll, Equality, Sorted;
    ClashOperands();
    ClashSorted();
    SortedIsSort(["a==b;c==d", "z==e"]);
    SortedIsSort(["a==b", "c==d", "z==e"]);
    ClashJoined();
    assert "(" + "a==b;c==d;z==e" + ")" == "(a==b;c==d;z==e)";
  }

  lemma ClashConforms()
    ensures Conforms(ClashLeft(), CLASH_SCHEMA) && AcceptedTexts(ClashLeft())
    ensures Conforms(ClashRight(), CLASH_SCHEMA) && AcceptedTexts(ClashRight())
  {
    forall m | m in ClashLeft().nodes || m in ClashRight().nodes ensures Conforms(m, CLASH_SCHEMA) && AcceptedTexts(m) {
      assert LeafConforms(m, CLASH_SCHEMA);
    }
  }

  /** With such a key two accepted filters share their canonical string, and so a cache entry,
      and select different records. Their texts are `("a==b;c"=="d";"z"=="e")` and the same with
      every selector and value of the other filter in quotes. */
  lemma {:induction false} KeysCanClash()
    ensures var b, c := ClashLeft(), ClashRight();
      && Grouped(b) && BindText(QuotedText(b), CLASH_SCHEMA, UNLIMITED) == Ok(b)
      && Grouped(c) && BindText(QuotedText(c), CLASH_SCHEMA, UNLIMITED) == Ok(c)
      && Canon(b) == Canon(c)
      && Indexable(b) && Translated(b).Ok? && Selects(Translated(b).value, CLASH_RECORD)
      && Indexable(c) && Translated(c).Ok? && !Selects(Translated(c).value, CLASH_RECORD)
  {
    hide *;
    var b, c := ClashLeft(), ClashRight();
    ClashConforms();
    NoLimits(b);
    NoLimits(c);
    EveryFilterHasText(b, CLASH_SCHEMA, UNLIMITED);
    EveryFilterHasText(c, CLASH_SCHEMA, UNLIMITED);
    ClashCanons();
    TranslationEvaluates(b, CLASH_SCHEMA, CLASH_RECORD);
    TranslationEvaluates(c, CLASH_SCHEMA, CLASH_RECORD);
    ClashEvaluates();
  }

  lemma NoLimits(b: Bound)
    ensures Within(BoundSize(b).height, UNLIMITED.maxDepth) && Within(BoundSize(b).ors, UNLIMITED.maxDisjunctions)
    ensures Within(BoundSize(b).leaves, UNLIMITED.maxComparisons)
  {
    hide BoundSize;
  }

  lemma ClashEvaluates()
    ensures Eval(ClashLeft(), CLASH_RECORD) && !Eval(ClashRight(), CLASH_RECORD)
  {
    forall m | m in ClashLeft().nodes ensures Eval(m, CLASH_RECORD) {
      assert m.values[0] in Elements(CLASH_RECORD, m.field.column);
    }
    assert ClashRight().nodes[0] in ClashRight().nodes && !Eval(ClashRight().nodes[0], CLASH_RECORD);
  }

  // ----- a key that starts with a bracket -----

  const BRACKET_SCHEMA: Schema :=
    map["k" := TEXT_FIELD, "(k" := TEXT_FIELD, "y" := TEXT_FIELD, "z" := TEXT_FIELD, "q" := TEXT_FIELD]

  function On(key: string, v: string): Bound
    requires key in BRACKET_SCHEMA
  {
    BoundComparison(key, FieldOf(key, BRACKET_SCHEMA), OpEq, [Str(v)])
  }

  function BracketLeft(): Bound {
    BoundAnd([BoundAnd([On("(k", "v"), On("y", "1")]), BoundAnd([On("k", "w"), On("z", "2")]), On("q", "3")])
  }

  function BracketRight(): Bound {
    BoundAnd([BoundAnd([BoundAnd([On("k", "v"), On("y", "1")]), On("(k", "w"), On("z", "2")]), On("q", "3")])
  }

  const BRACKET_RECORD: Record :=
    map["(k" := One(Str("v")), "y" := One(Str("1")), "k" := One(Str("w")), "z" := One(Str("2")), "q" := One(Str("3"))]

  lemma OnCanon(key: string, v: string)
    requires key in BRACKET_SCHEMA && !NeedsQuotes(v)
    ensures Canon(On(key, v)) == key + "==" + v
  {
  }

  lemma OnCanons()
    ensures Canon(On("(k", "v")) == "(k==v" && Canon(On("(k", "w")) == "(k==w"
    ensures Canon(On("k", "v")) == "k==v" && Canon(On("k", "w")) == "k==w"
    ensures Canon(On("y", "1")) == "y==1" && Canon(On("z", "2")) == "z==2" && Canon(On("q", "3")) == "q==3"
  {
    hide Canon, NeedsQuotes, On;
    NoQuotesNeeded();
    OnCanon("(k", "v");
    OnCanon("(k", "w");
    OnCanon("k", "v");
    OnCanon("k", "w");
    OnCanon("y", "1");
    OnCanon("z", "2");
    OnCanon("q", "3");
    assert "(k" + "==" + "v" == "(k==v" && "(k" + "==" + "w" == "(k==w";
    assert "k" + "==" + "v" == "k==v" && "k" + "==" + "w" == "k==w";
    assert "y" + "==" + "1" == "y==1" && "z" + "==" + "2" == "z==2" && "q" + "==" + "3" == "q==3";
  }

  lemma NoQuotesNeeded()
    ensures !NeedsQuotes("v") && !NeedsQuotes("w") && !NeedsQuotes("1") && !NeedsQuotes("2") && !NeedsQuotes("3")
  {
  }

  /** The canonical form of an AND whose operands print in order. */
  lemma AndCanon(ns: seq<Bound>, parts: seq<string>)
    requires CanonAll(ns) == parts && Sorted(parts)
    ensures Canon(BoundAnd(ns)) == "(" + Join(parts, ";") + ")"
  {
    hide Sort, Join, CanonAll;
    SortedIsSort(parts);
  }

  lemma JoinTwo(a: string, b: string)
    ensures Join([a, b], ";") == a + ";" + b
  {
    assert [a, b][1..] == [b];
  }

  lemma JoinThree(a: string, b: string, c: string)
    ensures Join([a, b, c], ";") == a + ";" + (b + ";" + c)
  {
    hide Join;
    JoinUnfolds([a, b, c], ";");
    assert [a, b, c][1..] == [b, c];
    JoinTwo(b, c);
  }

  lemma PairCanon(m: Bound, n: Bound)
    requires Leq(Canon(m), Canon(n))
    ensures Canon(BoundAnd([m, n])) == "(" + (Canon(m) + ";" + Canon(n)) + ")"
  {
    hide Canon, Join;
    AndCanon([m, n], [Canon(m), Canon(n)]);
    JoinTwo(Canon(m), Canon(n));
  }

  lemma TripleCanon(m: Bound, n: Bound, o: Bound)
    requires Leq(Canon(m), Canon(n)) && Leq(Canon(n), Canon(o))
    ensures Canon(BoundAnd([m, n, o])) == "(" + (Canon(m) + ";" + (Canon(n) + ";" + Canon(o))) + ")"
  {
    hide Canon, Join, Leq;
    LeqTransitive(Canon(m), Canon(n), Canon(o));
    AndCanon([m, n, o], [Canon(m), Canon(n), Canon(o)]);
    JoinThree(Canon(m), Canon(n), Canon(o));
  }

  lemma LeqFirst(a: string, b: string)
    requires a != "" && b != "" && a[0] < b[0]
    ensures Leq(a, b)
  {
  }

  lemma LeqSecond(a: string, b: string)
    requires |a| >= 2 && |b| >= 2 && a[0] == b[0] && a[1] < b[1]
    ensures Leq(a, b)
  {
    assert a[1..][0] == a[1] && b[1..][0] == b[1];
  }

  /** A bracket that opens a group and one that a key starts with look the same. */
  lemma SameBracket(kv: string, y: string)
    ensures "(" + (("(" + kv) + ";" + y) + ")" == "(" + ("(" + (kv + ";" + y) + ")")
  {
    assert ("(" + kv) + ";" + y == "(" + (kv + ";" + y);
  }

  lemma MoveBracket(i: string, r: string, q: string)
    ensures ("(" + (i + ";" + r) + ")") + ";" + q == ("(" + i) + ";" + ((r + ")") + ";" + q)
  {
    assert "(" + (i + ";" + r) == ("(" + i) + ";" + r;
    assert ("(" + i) + ";" + r + ")" == ("(" + i) + ";" + (r + ")");
  }

  lemma CloseBracket(kw: string, z: string)
    ensures "(" + (kw + ";" + z) + ")" == (("(" + kw) + ";" + z) + ")"
  {
    assert "(" + (kw + ";" + z) == ("(" + kw) + ";" + z;
  }

  lemma BracketsPrintAlike()
    ensures Canon(BracketLeft()) == Canon(BracketRight())
  {
    hide Canon, On, Leq;
    OnCanons();
    var m, n, q := BoundAnd([On("(k", "v"), On("y", "1")]), BoundAnd([On("k", "w"), On("z", "2")]), On("q", "3");
    var inner := BoundAnd([On("k", "v"), On("y", "1")]);
    var p := BoundAnd([inner, On("(k", "w"), On("z", "2")]);
    LeqFirst("(k==v", "y==1");
    LeqFirst("k==w", "z==2");
    LeqFirst("k==v", "y==1");
    PairCanon(On("(k", "v"), On("y", "1"));
    PairCanon(On("k", "w"), On("z", "2"));
    PairCanon(On("k", "v"), On("y", "1"));
    assert "(k==v" == "(" + "k==v" && "(k==w" == "(" + "k==w";
    LeqSecond(Canon(m), Canon(n));
    LeqFirst(Canon(n), "q==3");
    TripleCanon(m, n, q);
    InnerSorted();
    assert Canon(inner) == "(k==v;y==1)";
    LeqFirst("(k==w", "z==2");
    TripleCanon(inner, On("(k", "w"), On("z", "2"));
    LeqFirst(Canon(p), "q==3");
    PairCanon(p, q);
    SameBracket("k==v", "y==1");
    CloseBracket("k==w", "z==2");
    RegroupBrackets(Canon(inner), "(k==w", "z==2", "q==3");
  }

  lemma RegroupBrackets(i: string, w: string, z: string, q: string)
    ensures "(" + (("(" + (i + ";" + (w + ";" + z)) + ")") + ";" + q) + ")"
         == "(" + (("(" + i) + ";" + ((((w + ";" + z)) + ")") + ";" + q)) + ")"
  {
    MoveBracket(i, w + ";" + z, q);
  }

  lemma InnerSorted()
    ensures Leq("(k==v;y==1)", "(k==w")
  {
    assert "(k==v;y==1)"[1..] == "k==v;y==1)" && "(k==w"[1..] == "k==w";
    assert "k==v;y==1)"[1..] == "==v;y==1)" && "k==w"[1..] == "==w";
    assert "==v;y==1)"[1..] == "=v;y==1)" && "==w"[1..] == "=w";
    assert "=v;y==1)"[1..] == "v;y==1)" && "=w"[1..] == "w";
    assert Leq("v;y==1)", "w") && Leq("=v;y==1)", "=w") && Leq("==v;y==1)", "==w") && Leq("k==v;y==1)", "k==w");
  }

  lemma OnConforms(key: string, v: string)
    requires key in BRACKET_SCHEMA
    ensures Conforms(On(key, v), BRACKET_SCHEMA) && AcceptedTexts(On(key, v))
  {
    assert LeafConforms(On(key, v), BRACKET_SCHEMA);
  }

  lemma AndConforms(ns: seq<Bound>)
    requires |ns| >= 2 && forall i | 0 <= i < |ns| :: Conforms(ns[i], BRACKET_SCHEMA) && AcceptedTexts(ns[i])
    ensures Conforms(BoundAnd(ns), BRACKET_SCHEMA) && AcceptedTexts(BoundAnd(ns))
  {
  }

  lemma BracketsConform()
    ensures Conforms(BracketLeft(), BRACKET_SCHEMA) && AcceptedTexts(BracketLeft())
    ensures Conforms(BracketRight(), BRACKET_SCHEMA) && AcceptedTexts(BracketRight())
  {
    hide On, Conforms, AcceptedTexts;
    forall key, v | key in BRACKET_SCHEMA ensures Conforms(On(key, v), BRACKET_SCHEMA) && AcceptedTexts(On(key, v)) {
      OnConforms(key, v);
    }
    AndConforms([On("(k", "v"), On("y", "1")]);
    AndConforms([On("k", "w"), On("z", "2")]);
    AndConforms(BracketLeft().nodes);
    AndConforms([On("k", "v"), On("y", "1")]);
    AndConforms(BracketRight().nodes[0].nodes);
    AndConforms(BracketRight().nodes);
  }

  lemma BracketsEvaluate()
    ensures Eval(BracketLeft(), BRACKET_RECORD) && !Eval(BracketRight(), BRACKET_RECORD)
  {
    hide Eval;
    OnEvaluates("(k", "v");
    OnEvaluates("y", "1");
    OnEvaluates("k", "w");
    OnEvaluates("k", "v");
    OnEvaluates("z", "2");
    OnEvaluates("q", "3");
    AndEvaluates(BracketLeft().nodes[0].nodes);
    AndEvaluates(BracketLeft().nodes[1].nodes);
    AndEvaluates(BracketLeft().nodes);
    var m := BracketRight().nodes[0];
    assert m.nodes[0].nodes[0] == On("k", "v");
    AndEvaluates(m.nodes[0].nodes);
    AndEvaluates(m.nodes);
    AndEvaluates(BracketRight().nodes);
  }

  lemma AndEvaluates(ns: seq<Bound>)
    ensures Eval(BoundAnd(ns), BRACKET_RECORD) <==> forall i | 0 <= i < |ns| :: Eval(ns[i], BRACKET_RECORD)
  {
  }

  lemma OnEvaluates(key: string, v: string)
    requires key in BRACKET_SCHEMA
    ensures Eval(On(key, v), BRACKET_RECORD) <==> BRACKET_RECORD[key] == One(Str(v))
  {
    var b := On(key, v);
    assert b.field.column == key && b.values == [Str(v)];
    assert Elements(BRACKET_RECORD, key) == {BRACKET_RECORD[key].v};
    assert b.values[0] in b.values;
  }

  /** The other keys that can clash: one that starts with '('. Again two accepted filters share
      their canonical string and select different records. */
  lemma {:induction false} BracketKeysCanClash()
    ensures var b, c := BracketLeft(), BracketRight();
      && Grouped(b) && BindText(QuotedText(b), BRACKET_SCHEMA, UNLIMITED) == Ok(b)
      && Grouped(c) && BindText(QuotedText(c), BRACKET_SCHEMA, UNLIMITED) == Ok(c)
      && Canon(b) == Canon(c)
      && Indexable(b) && Translated(b).Ok? && Selects(Translated(b).value, BRACKET_RECORD)
      && Indexable(c) && Translated(c).Ok? && !Selects(Translated(c).value, BRACKET_RECORD)
  {
    hide *;
    var b, c := BracketLeft(), BracketRight();
    BracketsConform();
    NoLimits(b);
    NoLimits(c);
    EveryFilterHasText(b, BRACKET_SCHEMA, UNLIMITED);
    EveryFilterHasText(c, BRACKET_SCHEMA, UNLIMITED);
    BracketsPrintAlike();
    TranslationEvaluates(b, BRACKET_SCHEMA, BRACKET_RECORD);
    TranslationEvaluates(c, BRACKET_SCHEMA, BRACKET_RECORD);
    BracketsEvaluate();
  }

  // ----- a function applied twice -----

  /** Drops the comparisons on `d` and marks all others. */
  function MarkOrDrop(b: Bound): Bound {
    if !b.BoundComparison? then b
    else if b.selector == "d" then Nil
    else b.(selector := b.selector + "*")
  }

  /** Dropping the second of two operands marks the first one twice. */
  lemma {:induction false} RewriteAppliesTwice(l: Bound, d: Bound)
    requires l.BoundComparison? && d.BoundComparison? && l.selector != "d" && d.selector == "d"
    ensures Rewritten(BoundAnd([l, d]), MarkOrDrop) == l.(selector := l.selector + "*" + "*")
    ensures !ReplacesLeaves(MarkOrDrop)
  {
    hide Rewritten, ReplacesLeaves;
    assert OnComparisons(MarkOrDrop) && MakesTidy(MarkOrDrop);
    assert (l.selector + "*")[|l.selector|] == '*' && "d"[0] == 'd';
    DropCallsTwice(l, d, MarkOrDrop);
    ReplacesLeavesIff(MarkOrDrop);
    assert MarkOrDrop(d).Nil? && MarkOrDrop(MarkOrDrop(l)).selector != MarkOrDrop(l).selector;
  }
}
