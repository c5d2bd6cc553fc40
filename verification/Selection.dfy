/** From the text of a comparison to the records its document selects, with nothing in between:
    every spelling of every operator, on stored scalars, arrays and missing fields
    (rsql/ast.go:19-28, rsql/schema.go:66-75, rsql/mongox/mongox.go:52-76). */
module Selection {
  import opened Results
  import opened Runes
  import opened Ordering
  import opened Numbers
  import opened Syntax
  import opened Lexing
  import opened Grammar
  import opened Parsing
  import opened Spelling
  import opened Language
  import opened Schemas
  import opened Literals
  import opened Echoes
  import opened Mongo

  const UNLIMITED := Limits(0, 0, 0)

  // ----- the text of a comparison -----

  lemma TokenSpells(p: Piece, rest: string, ts: seq<Symbol>)
    requires PieceOk(p) && p.gap == "" && Spells(rest, ts)
    ensures Spells(Spell(p.sym, p.style) + rest, [p.sym] + ts)
  {
    hide Spell, Spells, PieceOk;
    PieceSpells(p, rest, ts);
    assert "" + Spell(p.sym, p.style) == Spell(p.sym, p.style);
  }

  lemma ValueSpells(v: string, style: Style)
    requires PieceOk(Piece("", TokValue(v), style))
    ensures Spells(Spell(TokValue(v), style), [TokValue(v)])
  {
    hide Spell, Spells, PieceOk;
    SpacesSpellNothing("");
    TokenSpells(Piece("", TokValue(v), style), "", []);
    assert Spell(TokValue(v), style) + "" == Spell(TokValue(v), style) && [TokValue(v)] + [] == [TokValue(v)];
  }

  lemma TestSpells(key: string, opText: string, rest: string, ts: seq<Symbol>)
    requires IsBare(key) && LookupOperator(opText).Ok? && Spells(rest, ts)
    ensures Spells(key + (opText + rest), [TokValue(key), TokOp(opText)] + ts)
  {
    hide Spells, IsBare, LookupOperator;
    BareSpellsItself(key);
    TokenSpells(Piece("", TokOp(opText), Unquoted([])), rest, ts);
    TokenSpells(Piece("", TokValue(key), Unquoted([])), opText + rest, [TokOp(opText)] + ts);
    assert [TokValue(key)] + ([TokOp(opText)] + ts) == [TokValue(key), TokOp(opText)] + ts;
  }

  lemma {:induction false} TestParses(x: string, a: Atom)
    requires a.Test? && AtomOk(a) && Spells(x, YieldAtom(a))
    ensures ParseText(x) ==
      Ok(Comparison(a.selector, LookupOperator(a.opText).value,
                    if a.args.Single? then [a.args.value] else a.args.values))
  {
    AtomMeans(a);
    hide *;
    AloneYieldsAtom(a);
    ParseIffSpelled(x, TreeAtom(a));
  }

  lemma AtomMeans(a: Atom)
    requires a.Test? && AtomOk(a)
    ensures TreeAtom(a) == Comparison(a.selector, LookupOperator(a.opText).value,
                                      if a.args.Single? then [a.args.value] else a.args.values)
  {
  }

  /** A bare selector, an operator by any name and a value in any spelling. */
  lemma {:induction false} ComparisonParses(key: string, opText: string, op: Operator, v: string, style: Style)
    requires IsBare(key) && LookupOperator(opText) == Ok(op) && PieceOk(Piece("", TokValue(v), style))
    ensures ParseText(key + (opText + Spell(TokValue(v), style))) == Ok(Comparison(key, op, [v]))
  {
    hide ParseText, Spells, Spell, PieceOk, IsBare, LookupOperator;
    ValueSpells(v, style);
    TestSpells(key, opText, Spell(TokValue(v), style), [TokValue(v)]);
    TestParses(key + (opText + Spell(TokValue(v), style)), Test(key, opText, Single(v)));
  }

  lemma BareSpellsItself(v: string)
    requires IsBare(v)
    ensures Spell(TokValue(v), Unquoted([])) == v && v != ""
  {
    BareSpells(v);
  }

  // ----- what a text selects -----

  /** The text is accepted and its document selects the record. */
  ghost predicate Picks(text: string, s: Schema, rec: Record) {
    && BindText(text, s, UNLIMITED).Ok?
    && var b := BindText(text, s, UNLIMITED).value;
    && Indexable(b) && Translated(b).Ok? && Selects(Translated(b).value, rec)
  }

  /** The comparison is accepted, and the document asks the column for the values. */
  ghost predicate AsksFor(text: string, s: Schema, column: string, test: Test) {
    && BindText(text, s, UNLIMITED).Ok?
    && var b := BindText(text, s, UNLIMITED).value;
    && Indexable(b) && Translated(b) == Ok(ColumnDoc(column, test))
  }

  lemma AskingPicks(text: string, s: Schema, column: string, test: Test, rec: Record)
    requires AsksFor(text, s, column, test)
    ensures Picks(text, s, rec) <==> Passes(rec, column, test)
  {
  }

  /** A key of the schema with no operator list and no enumeration of its own, whose column is
      `column`: declared, or the key where none is. */
  predicate PlainField(s: Schema, key: string, kind: Kind, column: string) {
    && IsBare(key) && key in s
    && s[key].kind == kind && s[key].ops == [] && s[key].accepted == []
    && column == (if s[key].column == "" then key else s[key].column)
  }

  // ----- integers -----

  function IntTest(op: Operator, n: int): Test
    requires !op.TakesMany()
  {
    match op
    case OpEq => Equal(Int(n))
    case OpNeq => Ne(Int(n))
    case OpGt => Gt(Int(n))
    case OpGe => Gte(Int(n))
    case OpLt => Lt(Int(n))
    case OpLe => Lte(Int(n))
  }

  /** A comparison that parsed, and whose arguments all coerce, asks for their values. */
  lemma ComparisonAsks(text: string, key: string, op: Operator, args: seq<string>, values: seq<Value>,
                       s: Schema, kind: Kind, column: string)
    requires PlainField(s, key, kind, column) && ParseText(text) == Ok(Comparison(key, op, args))
    requires op in KindOps(kind) && (op.TakesMany() || |args| == 1) && args != []
    requires |values| == |args| && forall i | 0 <= i < |args| :: Coerce(args[i], s[key]) == Ok(values[i])
    ensures AsksFor(text, s, column, TestOf(op, values))
  {
    hide ParseText, IsBare, Coerce, KindOps;
    ArgumentsCoerce(args, values, s[key]);
    assert LeafAdmissible(key, op, args, s);
    assert SizeOf(Comparison(key, op, args)) == Size(1, 1, 0, 0);
  }

  lemma ArgumentsCoerce(args: seq<string>, values: seq<Value>, f: Field)
    requires |values| == |args| && forall i | 0 <= i < |args| :: Coerce(args[i], f) == Ok(values[i])
    ensures (forall a | a in args :: Coerce(a, f).Ok?) && CoerceAll(args, f) == values
  {
    hide Coerce;
    forall a | a in args ensures Coerce(a, f).Ok? {
      var i :| 0 <= i < |args| && args[i] == a;
    }
  }

  lemma IntTextAsks(key: string, opText: string, op: Operator, n: int, s: Schema, column: string)
    requires PlainField(s, key, KindInt, column) && IsInt64(n)
    requires LookupOperator(opText) == Ok(op) && !op.TakesMany()
    ensures AsksFor(key + (opText + FormatInt(n)), s, column, IntTest(op, n))
  {
    hide ParseText, LookupOperator, IsBare, FormatInt, ParseInt, AsksFor;
    var digits := FormatInt(n);
    FormatIntIsBare(n);
    FormatIntParses(n);
    BareSpellsItself(digits);
    ComparisonParses(key, opText, op, digits, Unquoted([]));
    assert Coerce(digits, s[key]) == Ok(Int(n));
    ComparisonAsks(key + (opText + digits), key, op, [digits], [Int(n)], s, KindInt, column);
  }

  /** The record stores the integer under the column, alone or in an array. */
  predicate StoresInt(rec: Record, column: string, i: int) {
    && column in rec
    && match rec[column]
       case One(x) => x == Int(i)
       case Many(xs) => Int(i) in xs
  }

  /** A stored integer passes the test. */
  ghost predicate SomeInt(rec: Record, column: string, p: int -> bool) {
    exists i: int :: StoresInt(rec, column, i) && p(i)
  }

  lemma RangesInts(rec: Record, column: string, passes: Value -> bool, p: int -> bool)
    requires forall x: Value :: passes(x) <==> x.Int? && p(x.i)
    ensures Ranges(rec, column, passes) <==> SomeInt(rec, column, p)
  {
    if Ranges(rec, column, passes) {
      var x := if rec[column].One? then rec[column].v else StoredPassing(rec[column].vs, passes);
      assert StoresInt(rec, column, x.i) && p(x.i);
    }
    if SomeInt(rec, column, p) {
      var i: int :| StoresInt(rec, column, i) && p(i);
      assert passes(Int(i));
    }
  }

  ghost function StoredPassing(xs: seq<Value>, passes: Value -> bool): (x: Value)
    requires exists x | x in xs :: passes(x)
    ensures x in xs && passes(x)
  {
    var x :| x in xs && passes(x);
    x
  }

  lemma IntTestMeans(op: Operator, n: int, rec: Record, column: string)
    requires !op.TakesMany()
    ensures Passes(rec, column, IntTest(op, n)) <==>
      match op
      case OpEq => StoresInt(rec, column, n)
      case OpNeq => !StoresInt(rec, column, n)
      case OpGt => SomeInt(rec, column, i => i > n)
      case OpGe => SomeInt(rec, column, i => i >= n)
      case OpLt => SomeInt(rec, column, i => i < n)
      case OpLe => SomeInt(rec, column, i => i <= n)
  {
    hide Ranges, SomeInt;
    var v := Int(n);
    match op
    case OpGt => RangesInts(rec, column, x => Less(v, x), i => i > n);
    case OpGe => RangesInts(rec, column, x => Less(v, x) || x == v, i => i >= n);
    case OpLt => RangesInts(rec, column, x => Less(x, v), i => i < n);
    case OpLe => RangesInts(rec, column, x => Less(x, v) || x == v, i => i <= n);
    case _ =>
  }

  lemma IntTextPicks(key: string, t: string, op: Operator, n: int, s: Schema, column: string, rec: Record)
    requires PlainField(s, key, KindInt, column) && IsInt64(n) && LookupOperator(t) == Ok(op) && !op.TakesMany()
    ensures Picks(key + (t + FormatInt(n)), s, rec) <==> Passes(rec, column, IntTest(op, n))
  {
    hide Picks, AsksFor, LookupOperator, FormatInt, IsBare, Passes;
    IntTextAsks(key, t, op, n, s, column);
    AskingPicks(key + (t + FormatInt(n)), s, column, IntTest(op, n), rec);
  }

  /** Each operator on integers under each of its names, against any record: a stored integer,
      or one in a stored array, has to stand in the relation to `n`; `!=` asks that `n` is not
      among them, and holds where the field is missing. */
  lemma {:induction false} IntegerTextsSelect(key: string, n: int, s: Schema, column: string, rec: Record)
    requires PlainField(s, key, KindInt, column) && IsInt64(n)
    ensures forall t | t in [">", "=gt="] ::
      Picks(key + (t + FormatInt(n)), s, rec) <==> SomeInt(rec, column, i => i > n)
    ensures forall t | t in [">=", "=ge="] ::
      Picks(key + (t + FormatInt(n)), s, rec) <==> SomeInt(rec, column, i => i >= n)
    ensures forall t | t in ["<", "=lt="] ::
      Picks(key + (t + FormatInt(n)), s, rec) <==> SomeInt(rec, column, i => i < n)
    ensures forall t | t in ["<=", "=le="] ::
      Picks(key + (t + FormatInt(n)), s, rec) <==> SomeInt(rec, column, i => i <= n)
    ensures forall t | t in ["==", "=eq="] :: Picks(key + (t + FormatInt(n)), s, rec) <==> StoresInt(rec, column, n)
    ensures forall t | t in ["!=", "=ne="] :: Picks(key + (t + FormatInt(n)), s, rec) <==> !StoresInt(rec, column, n)
  {
    hide Picks, AsksFor, LookupOperator, FormatInt, IsBare, Passes, StoresInt, SomeInt, PlainField, IntTest;
    OperatorNames();
    forall t, op | LookupOperator(t) == Ok(op) && !op.TakesMany()
      ensures Picks(key + (t + FormatInt(n)), s, rec) <==> Passes(rec, column, IntTest(op, n))
    {
      IntTextPicks(key, t, op, n, s, column, rec);
    }
    forall op: Operator | !op.TakesMany() { IntTestMeans(op, n, rec, column); }
  }

  /** In particular against a record that stores the single integer `i`. */
  lemma {:induction false} IntegerTextsSelectOne(key: string, n: int, i: int, s: Schema, column: string, rec: Record)
    requires PlainField(s, key, KindInt, column) && IsInt64(n)
    requires column in rec && rec[column] == One(Int(i))
    ensures forall t | t in [">", "=gt="] :: Picks(key + (t + FormatInt(n)), s, rec) <==> i > n
    ensures forall t | t in [">=", "=ge="] :: Picks(key + (t + FormatInt(n)), s, rec) <==> i >= n
    ensures forall t | t in ["<", "=lt="] :: Picks(key + (t + FormatInt(n)), s, rec) <==> i < n
    ensures forall t | t in ["<=", "=le="] :: Picks(key + (t + FormatInt(n)), s, rec) <==> i <= n
    ensures forall t | t in ["==", "=eq="] :: Picks(key + (t + FormatInt(n)), s, rec) <==> i == n
    ensures forall t | t in ["!=", "=ne="] :: Picks(key + (t + FormatInt(n)), s, rec) <==> i != n
  {
    hide Picks, FormatInt, PlainField;
    IntegerTextsSelect(key, n, s, column, rec);
    SoleInt(rec, column, i, j => j > n);
    SoleInt(rec, column, i, j => j >= n);
    SoleInt(rec, column, i, j => j < n);
    SoleInt(rec, column, i, j => j <= n);
  }

  lemma SoleInt(rec: Record, column: string, i: int, p: int -> bool)
    requires column in rec && rec[column] == One(Int(i))
    ensures SomeInt(rec, column, p) <==> p(i)
  {
    if p(i) { assert StoresInt(rec, column, i); }
  }

  /** Every text that ParseBool takes asks for its bool. */
  lemma {:induction false} BoolTextsAsk(key: string, s: Schema, column: string)
    requires PlainField(s, key, KindBool, column)
    ensures forall v | v in ["1", "t", "T", "TRUE", "true", "True"] ::
      AsksFor(key + ("==" + v), s, column, Equal(Bool(true))) && AsksFor(key + ("!=" + v), s, column, Ne(Bool(true)))
    ensures forall v | v in ["0", "f", "F", "FALSE", "false", "False"] ::
      AsksFor(key + ("==" + v), s, column, Equal(Bool(false))) && AsksFor(key + ("!=" + v), s, column, Ne(Bool(false)))
  {
    hide AsksFor, PlainField, ParseBool;
    forall v, b | ParseBool(v) == Ok(b)
      ensures AsksFor(key + ("==" + v), s, column, Equal(Bool(b))) && AsksFor(key + ("!=" + v), s, column, Ne(Bool(b)))
    {
      BoolTextAsks(key, v, b, s, column);
    }
    ParseBoolTable();
  }

  lemma BoolTextAsks(key: string, v: string, b: bool, s: Schema, column: string)
    requires PlainField(s, key, KindBool, column) && ParseBool(v) == Ok(b)
    ensures AsksFor(key + ("==" + v), s, column, Equal(Bool(b)))
    ensures AsksFor(key + ("!=" + v), s, column, Ne(Bool(b)))
  {
    hide ParseText, IsBare, AsksFor, ParseBool;
    ParsedBoolIsBare(v);
    BareSpellsItself(v);
    EqualNames();
    ComparisonParses(key, "==", OpEq, v, Unquoted([]));
    ComparisonParses(key, "!=", OpNeq, v, Unquoted([]));
    ComparisonAsks(key + ("==" + v), key, OpEq, [v], [Bool(b)], s, KindBool, column);
    ComparisonAsks(key + ("!=" + v), key, OpNeq, [v], [Bool(b)], s, KindBool, column);
  }

  /** The names of the operators. */
  lemma OperatorNames()
    ensures forall t | t in [">", "=gt="] :: LookupOperator(t) == Ok(OpGt)
    ensures forall t | t in [">=", "=ge="] :: LookupOperator(t) == Ok(OpGe)
    ensures forall t | t in ["<", "=lt="] :: LookupOperator(t) == Ok(OpLt)
    ensures forall t | t in ["<=", "=le="] :: LookupOperator(t) == Ok(OpLe)
    ensures forall t | t in ["==", "=eq="] :: LookupOperator(t) == Ok(OpEq)
    ensures forall t | t in ["!=", "=ne="] :: LookupOperator(t) == Ok(OpNeq)
    ensures LookupOperator("=in=") == Ok(OpIn)
    ensures forall t | t in ["=out=", "=nin="] :: LookupOperator(t) == Ok(OpNotIn)
  {
    hide LookupOperator;
    GreaterNames();
    LessNames();
    EqualNames();
    ListNames();
  }

  lemma GreaterNames()
    ensures LookupOperator(">") == Ok(OpGt) && LookupOperator("=gt=") == Ok(OpGt)
    ensures LookupOperator(">=") == Ok(OpGe) && LookupOperator("=ge=") == Ok(OpGe)
  {
    assert "=gt="[1] == 'g' && "=ge="[1] == 'g' && "=gt="[2] == 't' && "=ge="[2] == 'e';
  }

  lemma LessNames()
    ensures LookupOperator("<") == Ok(OpLt) && LookupOperator("=lt=") == Ok(OpLt)
    ensures LookupOperator("<=") == Ok(OpLe) && LookupOperator("=le=") == Ok(OpLe)
  {
    assert "=lt="[1] == 'l' && "=le="[1] == 'l' && "=lt="[2] == 't' && "=le="[2] == 'e';
  }

  lemma EqualNames()
    ensures LookupOperator("==") == Ok(OpEq) && LookupOperator("=eq=") == Ok(OpEq)
    ensures LookupOperator("!=") == Ok(OpNeq) && LookupOperator("=ne=") == Ok(OpNeq)
  {
    assert "=eq="[1] == 'e' && "=ne="[1] == 'n' && "=ne="[2] == 'e';
  }

  lemma ListNames()
    ensures LookupOperator("=in=") == Ok(OpIn)
    ensures LookupOperator("=out=") == Ok(OpNotIn) && LookupOperator("=nin=") == Ok(OpNotIn)
  {
    assert "=in="[1] == 'i' && "=out="[1] == 'o' && "=nin="[1] == 'n' && "=nin="[2] == 'i';
  }

  const OPERATOR_NAMES := ["", "eq", "ne", "gt", "ge", "lt", "le", "in", "nin", "out"]

  /** Between two '=' any letters read as an operator, but only these parse. */
  lemma {:induction false} NamedOperators(name: string)
    requires forall i | 0 <= i < |name| :: IsLetter(name[i]) && name[i] != '='
    ensures ParseText("x" + ("=" + name + "=" + "1")).Ok? <==> name in OPERATOR_NAMES
  {
    hide ParseText, IsBare, LookupOperator, IsLetter;
    var op := "=" + name + "=";
    NamesKnown(name);
    PlainCharacters();
    if LookupOperator(op).Ok? {
      BareSpellsItself("1");
      ComparisonParses("x", op, LookupOperator(op).value, "1", Unquoted([]));
    }
    if ParseText("x" + (op + "1")).Ok? && name != "" {
      NamedStream(name);
      ParsedOperatorIsKnown("x" + (op + "1"), op);
    }
  }

  lemma PlainCharacters()
    ensures IsBare("x") && IsBare("1")
  {
  }

  lemma NamesKnown(name: string)
    ensures LookupOperator("=" + name + "=").Ok? <==> name in OPERATOR_NAMES
  {
    var op := "=" + name + "=";
    hide LookupOperator;
    assert op[1..|op| - 1] == name;
    if LookupOperator(op).Ok? {
      KnownNames(op);
    }
    assert "=" + "" + "=" == "==" && "=" + "eq" + "=" == "=eq=" && "=" + "ne" + "=" == "=ne=";
    assert "=" + "gt" + "=" == "=gt=" && "=" + "ge" + "=" == "=ge=" && "=" + "lt" + "=" == "=lt=";
    assert "=" + "le" + "=" == "=le=" && "=" + "in" + "=" == "=in=" && "=" + "nin" + "=" == "=nin=";
    assert "=" + "out" + "=" == "=out=";
    OperatorNames();
  }

  lemma KnownNames(op: string)
    requires LookupOperator(op).Ok? && op[0] == '='
    ensures op in ["==", "=eq=", "=ne=", "=gt=", "=ge=", "=lt=", "=le=", "=in=", "=nin=", "=out="]
  {
  }

  lemma NamedStream(name: string)
    requires name != "" && forall i | 0 <= i < |name| :: IsLetter(name[i]) && name[i] != '='
    ensures TokOp("=" + name + "=") in Stream("x" + ("=" + name + "=" + "1"))
  {
    var s := "=" + name + "=" + "1";
    hide *;
    NamedReads(name, "1");
    FirstSymbol(s);
    AfterX(s);
  }

  lemma FirstSymbol(s: string)
    requires s != "" && s[0] == '=' && OpLexeme(s).Lexed?
    ensures Stream(s)[0] == OpLexeme(s).sym
  {
    hide OpLexeme, Stream;
    StartsWithEquals(s);
    PieceHead(s);
  }

  lemma AfterX(s: string)
    requires s != "" && s[0] == '='
    ensures Stream("x" + s) == [TokValue("x")] + Stream(s)
  {
    hide *;
    PlainCharacters();
    BareSpellsItself("x");
    StartsWithEquals(s);
    XIsOk();
    assert "" + "x" + s == "x" + s;
    PieceReads(Piece("", TokValue("x"), Unquoted([])), s);
  }

  lemma XIsOk()
    ensures PieceOk(Piece("", TokValue("x"), Unquoted([])))
  {
  }

  lemma StartsWithEquals(s: string)
    requires s != "" && s[0] == '='
    ensures Gap(s) == 0 && s[0..] == s && Lexeme(s) == OpLexeme(s)
    ensures Delimits(s, TokValue("x"), Unquoted([]))
  {
    hide OpLexeme;
  }

  lemma {:induction false} ParsedOperatorIsKnown(s: string, op: string)
    requires ParseText(s).Ok? && TokOp(op) in Stream(s)
    ensures LookupOperator(op).Ok?
  {
    hide Stream, LookupOperator, ParseAll, YieldDisj, DisjOk, TreeDisj;
    var n := ParseText(s).value;
    ParseTextIs(s);
    ParseIffDerives(Stream(s), n);
    var d :| DisjOk(d) && Stream(s) == YieldDisj(d) + [TokEOF] && n == TreeDisj(d);
    DisjWritable(d);
    assert TokOp(op) in YieldDisj(d);
  }

  // ----- strings and lists -----

  /** The text of an argument list. */
  function ListText(vs: seq<string>): string {
    "(" + Join(vs, ",") + ")"
  }

  lemma {:induction false} ItemsSpell(vs: seq<string>, k: nat)
    requires k < |vs| && forall v | v in vs :: IsBare(v)
    ensures Spells(Join(vs[k..], ","), [TokValue(vs[k])] + YieldValues(vs, k + 1))
    decreases |vs| - k
  {
    hide Spells, Spell, IsBare, Join;
    JoinTail(vs, k, ",");
    BareSpellsItself(vs[k]);
    ValueSpells(vs[k], Unquoted([]));
    if k + 1 < |vs| {
      ItemsSpell(vs, k + 1);
      SeparatorTexts();
      var more := [TokValue(vs[k + 1])] + YieldValues(vs, k + 2);
      SpellsBetween(vs[k], [TokValue(vs[k])], TokOr, Join(vs[k + 1..], ","), more);
      assert [TokOr] + more == YieldValues(vs, k + 1);
    } else {
      assert vs[k] + "" == vs[k] && [TokValue(vs[k])] + [] == [TokValue(vs[k])];
    }
  }

  lemma ListSpells(vs: seq<string>)
    requires vs != [] && forall v | v in vs :: IsBare(v)
    ensures Spells(ListText(vs), YieldArguments(Listed(vs)))
  {
    hide Spells, Spell, IsBare, Join;
    var items, ts := Join(vs, ","), [TokValue(vs[0])] + YieldValues(vs, 1);
    ItemsSpell(vs, 0);
    assert vs[0..] == vs;
    SeparatorTexts();
    assert ")" + "" == ")" && [TokRParen] + [] == [TokRParen];
    SpellsBetween(items, ts, TokRParen, "", []);
    SpellsBetween("", [], TokLParen, items + ")", ts + [TokRParen]);
    assert "" + ("(" + (items + ")")) == ListText(vs);
    assert [] + ([TokLParen] + (ts + [TokRParen])) == YieldArguments(Listed(vs));
  }

  /** A bare selector, an operator by any name and a list of bare values. */
  lemma {:induction false} ListParses(key: string, opText: string, op: Operator, vs: seq<string>)
    requires IsBare(key) && LookupOperator(opText) == Ok(op) && vs != [] && forall v | v in vs :: IsBare(v)
    ensures ParseText(key + (opText + ListText(vs))) == Ok(Comparison(key, op, vs))
  {
    hide ParseText, Spells, ListText, IsBare, LookupOperator, YieldArguments;
    ListSpells(vs);
    TestSpells(key, opText, ListText(vs), YieldArguments(Listed(vs)));
    TestParses(key + (opText + ListText(vs)), Test(key, opText, Listed(vs)));
  }

  /** The record stores the string under the column, alone or in an array. */
  predicate Stores(rec: Record, column: string, v: string) {
    && column in rec
    && match rec[column]
       case One(x) => x == Str(v)
       case Many(xs) => Str(v) in xs
  }

  function Strs(vs: seq<string>): (r: seq<Value>)
    ensures |r| == |vs| && forall i | 0 <= i < |vs| :: r[i] == Str(vs[i])
  {
    seq(|vs|, i requires 0 <= i < |vs| => Str(vs[i]))
  }

  lemma ListTextAsks(key: string, opText: string, op: Operator, vs: seq<string>, s: Schema, column: string)
    requires PlainField(s, key, KindString, column) && (op.OpIn? || op.OpNotIn?)
    requires LookupOperator(opText) == Ok(op) && vs != [] && forall v | v in vs :: IsBare(v)
    ensures AsksFor(key + (opText + ListText(vs)), s, column, if op.OpIn? then In(Strs(vs)) else Nin(Strs(vs)))
  {
    hide ParseText, LookupOperator, IsBare, AsksFor, ListText;
    ListParses(key, opText, op, vs);
    ComparisonAsks(key + (opText + ListText(vs)), key, op, vs, Strs(vs), s, KindString, column);
  }

  lemma StringTextAsks(key: string, opText: string, op: Operator, v: string, s: Schema, column: string)
    requires PlainField(s, key, KindString, column) && (op.OpEq? || op.OpNeq?)
    requires LookupOperator(opText) == Ok(op) && IsBare(v)
    ensures AsksFor(key + (opText + v), s, column, if op.OpEq? then Equal(Str(v)) else Ne(Str(v)))
  {
    hide ParseText, LookupOperator, IsBare, AsksFor;
    BareSpellsItself(v);
    ComparisonParses(key, opText, op, v, Unquoted([]));
    ComparisonAsks(key + (opText + v), key, op, [v], [Str(v)], s, KindString, column);
  }

  /** Equality and lists of strings, under each name of the operators: on a scalar, on an array,
      which is asked whether it contains the value, and on a missing field. */
  lemma {:induction false} StringTextsSelect(key: string, v: string, s: Schema, column: string, rec: Record)
    requires PlainField(s, key, KindString, column) && IsBare(v)
    ensures forall t | t in ["==", "=eq="] :: Picks(key + (t + v), s, rec) <==> Stores(rec, column, v)
    ensures forall t | t in ["!=", "=ne="] :: Picks(key + (t + v), s, rec) <==> !Stores(rec, column, v)
  {
    hide Picks, AsksFor, LookupOperator, IsBare;
    OperatorNames();
    forall t, op | LookupOperator(t) == Ok(op) && (op.OpEq? || op.OpNeq?)
      ensures Picks(key + (t + v), s, rec) <==> (op.OpEq? <==> Stores(rec, column, v))
    {
      StringTextAsks(key, t, op, v, s, column);
      AskingPicks(key + (t + v), s, column, if op.OpEq? then Equal(Str(v)) else Ne(Str(v)), rec);
    }
  }

  lemma {:induction false} ListTextsSelect(key: string, vs: seq<string>, s: Schema, column: string, rec: Record)
    requires PlainField(s, key, KindString, column) && vs != [] && forall v | v in vs :: IsBare(v)
    ensures Picks(key + ("=in=" + ListText(vs)), s, rec) <==> exists v | v in vs :: Stores(rec, column, v)
    ensures forall t | t in ["=out=", "=nin="] ::
      Picks(key + (t + ListText(vs)), s, rec) <==> forall v | v in vs :: !Stores(rec, column, v)
  {
    hide Picks, AsksFor, LookupOperator, IsBare, ListText;
    OperatorNames();
    StoresAny(rec, column, vs);
    forall t, op | LookupOperator(t) == Ok(op) && (op.OpIn? || op.OpNotIn?)
      ensures Picks(key + (t + ListText(vs)), s, rec) <==> (op.OpIn? <==> exists v | v in vs :: Stores(rec, column, v))
    {
      ListTextAsks(key, t, op, vs, s, column);
      AskingPicks(key + (t + ListText(vs)), s, column, if op.OpIn? then In(Strs(vs)) else Nin(Strs(vs)), rec);
    }
  }

  lemma StoresAny(rec: Record, column: string, vs: seq<string>)
    ensures (exists v | v in Strs(vs) :: EqualsField(rec, column, v)) <==> exists v | v in vs :: Stores(rec, column, v)
  {
    forall i | 0 <= i < |vs| ensures EqualsField(rec, column, Strs(vs)[i]) <==> Stores(rec, column, vs[i]) {
    }
    if exists v | v in vs :: Stores(rec, column, v) {
      var v :| v in vs && Stores(rec, column, v);
      var i :| 0 <= i < |vs| && vs[i] == v;
      assert Strs(vs)[i] in Strs(vs);
    }
    if exists v | v in Strs(vs) :: EqualsField(rec, column, v) {
      var v :| v in Strs(vs) && EqualsField(rec, column, v);
      var i :| 0 <= i < |vs| && Strs(vs)[i] == v;
      assert vs[i] in vs;
    }
  }
}
