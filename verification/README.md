# RSQL filters and client addresses, in Dafny

This project models two parts of servicekit-go and proves properties of the models:

- the RSQL filter pipeline (`rsql`, `rsql/mongox`): tokenizer, recursive-descent parser, binder, canonical printer, tree algebra and the translation to a query document;
- the trusted-proxy scan that picks a client address from `X-Forwarded-For` (`httpx/ip.go`).

`dafny verify dfyconfig.toml` checks all of it.

## How the pieces fit

Mutable readers and printers are classes or methods with loops, proved against functions on values; the theorems are about those functions.

| file | module | what it holds |
|---|---|---|
| `Runes.dfy` | `Runes` | character classes |
| `Ordering.dfy` | `Ordering` | byte order on strings, join, sorting in place, multisets |
| `Syntax.dfy` | `Syntax` | tokens, operators and aliases, syntax trees |
| `Lexer.dfy` | `Lexing` | the tokenizer class and the symbol stream it produces |
| `Grammar.dfy` | `Grammar` | parse trees, the symbols they stand for, and the recognizer, sound and complete |
| `Counter.dfy` | `Counters` | the same language as a machine with one counter, for showing what cannot be parsed |
| `Parser.dfy` | `Parsing` | the parser class over the lazy lexer |
| `Spelling.dfy` | `Spelling` | all ways to write a symbol sequence; the parse does not depend on them |
| `Language.dfy` | `Language` | which texts parse, characters, precedence |
| `Numbers.dfy` | `Numbers` | int64 and bool texts |
| `Schema.dfy` | `Schemas` | the binder class with its counters; shape of accepted filters |
| `Acceptance.dfy` | `Acceptance` | which expressions are accepted, in the terms of the text and the schema |
| `Canonical.dfy` | `Canonicals` | the printer, normal forms, equality up to order |
| `Literals.dfy` | `Literals` | which values survive printing and lexing |
| `Echo.dfy`, `RoundTrip.dfy`, `Rebind.dfy` | `Echoes`, `RoundTrips`, `Rebinding` | printing and reading back |
| `Injective.dfy` | `Injectivity` | unique readability of the print |
| `Validity.dfy` | `Validity` | when a canonical string is RSQL at all |
| `Decoding.dfy` | `Decoding` | what a canonical string that is RSQL parses to |
| `Limitations.dfy` | `Limitations` | accepted filters with inputs for each promise that does not hold |
| `Tree.dfy` | `Trees` | `All`, `Any`, `Rewrite` |
| `Mongo.dfy` | `Mongo` | translation, what documents select, cache keys |
| `Selection.dfy` | `Selection` | from the text of a comparison to the records it selects |
| `ClientIp.dfy` | `ClientIps` | the hop scan |

The lexer stops at the first error and the parser pulls tokens lazily. `Lexing.Stream` is the sequence of all symbols the parser could ever see, ending in end-of-input or in a mark for the place where the lexer gives up; the parser methods are proved against the recognizer on that sequence.

Methods are proved against specification functions that follow the code. What those functions mean is said once more without them, so that code and specification cannot be wrong together: `Language` and `Acceptance` for what is accepted, `Selection` from text to selected records, `ClientIps.Answers` for the address, the tables of characters, operators, numbers and kinds written out.

## Where the code does less than its comments say

**Coming back.** `rsql/canonical.go:28-29` says that canonical output is re-parseable, and `rsql/canonical.go:55` that it is safe to echo back as the filter the server parsed. For every accepted filter, binding the canonical form again gives the filter with operands and values sorted if and only if (`Rebinding.CanonicalRoundTripsIff`, the condition is `Rebinding.ReadsBack`)

- each selector is non-empty and free of reserved characters, backslashes and spaces (selectors are printed raw);
- each value's text either contains a reserved character, space, tab or newline, so that the printer quotes it, or is non-empty and free of backslashes and of spaces such as CR or U+00A0;
- a field with an enumeration also lists the printed text of each value (the enumeration is compared with the raw text before coercion).

`Limitations.UnsafeValuesDoNotRoundTrip`, `UnsafeSelectorsDoNotRoundTrip` and `EnumeratedTextsDoNotRoundTrip` give an accepted filter for every failing value, every failing key, and every text that an enumeration lists for an integer or a bool that prints differently.

**Staying valid.** `rsql/canonical.go:54-55` says that the canonical form stays valid RSQL. That is a weaker promise with a weaker condition. When no selector contains a reserved character, the canonical form parses if and only if each selector reads as exactly one value and each argument list as one or more (`Validity.CanonicalParsesIff`, the condition is `Validity.Readable` of the sorted filter). `Decoding.CanonicalParsesTo` and `Decoding.CanonicalBindsTo` say what it then parses to and what binding it again returns. The failures are of two kinds:

- rejected: an empty value, a value with an unquoted space inside such as U+00A0, and a value that ends in a backslash which is not itself escaped (`Limitations.RejectedCanonicalForms`); a key with a space inside (`SpacedSelectorIsRejected`);
- accepted as another filter: `x\y` reads as `xy` (`BackslashReadsAsAnother`); in a list a backslash at the end takes the comma along, so that two values read as one (`ListSwallowsComma`); a filter on a key such as `a==b;c` reads as one on the keys `a` and `c` (`RawSelectorReadsAsAnother`).

Putting every selector and value in quotes would lose nothing: `RoundTrips.QuotedTextParses` and `Rebinding.EveryFilterHasText` hold for all filters.

**Cache keys.** As a cache key (`rsql/canonical.go:10-12`) the string is sound without any of this, as long as no key that the two filters use starts with '(' and none starts like a comparison on another one: with that key, an operator and an argument that does not reach its end (`Injectivity.PlainKeys`, `EqualCanonIffSame`, `Mongo.EqualKeysSelectAlike`). Keys such as `it's`, `a;b` or `x=y` do no harm. The two kinds left out can clash: `Limitations.KeysCanClash` and `Limitations.BracketKeysCanClash` each give two accepted filters of one schema that share their canonical string and select different records.

**Rewriting.** `rsql/tree.go:44-46` says that each node is replaced by the function's result. When the rest of a group is dropped, the function is also called on what it has already made of the comparison that is left. A function that acts on comparisons only, and makes nothing, a comparison or a tidy group of each, replaces every comparison of every tree by its result if and only if it drops nothing or is idempotent (`Trees.ReplacesLeavesIff`); `Limitations.RewriteAppliesTwice` is an input. For a given tree it is enough that the function leaves sole survivors alone (`Trees.Settles`), and the laws of `Rewrite` below are stated under that condition.

## Model

| member | source | states |
|---|---|---|
| `Lexing.Lexer.Next` | rsql/lex.go:41-74 | one call finds the symbol that the reading rules find in the unread text; a token starts after the skipped spaces, between the old and the new read position, and every token but the last moves the read position on |
| `Lexing.Lexer.ReadOp` | rsql/lex.go:76-118 | reads the two-character, one-character and named operators, and fails where an operator is cut short or has a non-letter in its name |
| `Lexing.Lexer.ReadWord` | rsql/lex.go:101-117 | the name of a named operator: letters up to the closing '=', failing at the end of input |
| `Lexing.Lexer.ReadQuoted` | rsql/lex.go:120-145 | the decoded body up to the matching unescaped quote, failing when there is none |
| `Lexing.Lexer.ReadBare` | rsql/lex.go:147-175 | the decoded text up to a space, a reserved character or the end, failing on a trailing backslash or an empty text |
| `Lexing.SlicesTileSource` | rsql/lex.go:41-74 | gaps and tokens put side by side are the source, one slice per symbol; gaps are spaces and tokens are not empty |
| `Lexing.StreamEnds` | rsql/lex.go:41-46 | a text's symbols end with end-of-input or the lexer's first error, and neither occurs earlier |
| `Grammar.ParseIffDerives` | rsql/parse.go:7-152 | the recognizer returns a tree exactly when the grammar derives the symbols with that tree: ';' inside ',', groups in brackets, lists only after an operator, groups of one collapsed |
| `Grammar.Unambiguous` | rsql/parse.go:66-87 | no symbol sequence has two parse trees |
| `Grammar.DisjSound` | rsql/parse.go:36-64 | what is recognized is spelled by the parse tree found, followed by the symbols left over |
| `Grammar.DisjComplete` | rsql/parse.go:36-64 | a derivable sequence is recognized as its own parse tree, up to where no operator goes on |
| `Grammar.TreeWellShaped` | rsql/parse.go:44-64 | groups in the syntax tree have at least two operands and comparisons at least one argument |
| `Parsing.Parser.Advance` | rsql/parse.go:27-34 | moves one symbol on in the stream, or fails at the lexical error with the current token kept |
| `Parsing.Parser.ParseOr` | rsql/parse.go:36-64 | the loop with ',' returns the tree of the recognized or-expression and stands just behind it; when it fails no parse of the whole input exists |
| `Parsing.Parser.ParseAnd` | rsql/parse.go:40-64 | the same for ';' and and-expressions |
| `Parsing.Parser.ParseConstraint` | rsql/parse.go:66-87 | the same for a bracketed group or a comparison |
| `Parsing.Parser.ParseComparison` | rsql/parse.go:89-112 | the same for selector, operator and arguments, failing on an unknown operator |
| `Parsing.Parser.ReadArguments` | rsql/parse.go:114-152 | the same for one value or a bracketed non-empty list |
| `Parsing.Parse` | rsql/parse.go:7-20 | the lazy parser accepts what the recognizer accepts on the symbols of the whole text, with the same tree |
| `Counters.ParseIffAccepts` | rsql/parse.go:7-152 | reading left to right with nothing but the place in a constraint and the number of open groups decides exactly the same language |
| `Spelling.RespellingKeepsParse` | rsql/lex.go:41-175 | rewriting an accepted text with other spaces between tokens, other quoting or escaping of values and other operator aliases keeps its syntax tree |
| `Spelling.ParseSeesThroughAliases` | rsql/ast.go:19-28 | symbol sequences that differ only in operator aliases have one parse result |
| `Spelling.RenderReads` | rsql/lex.go:41-175 | any spelling of a symbol sequence whose tokens do not run into each other reads back as that sequence |
| `Spelling.SpellingParses` | rsql/parse.go:7-152 | any spelling of a parse tree's symbols parses to its syntax tree, without spaces between them |
| `Spelling.DisjOperand` | rsql/parse.go:36-152 | in derivable symbols an operand or argument starts exactly where none has just ended |
| `Language.ParseIffSpelled` | rsql/parse.go:7-152 | a text parses to a syntax tree exactly when it is a spelling of a parse tree that means it: spaces anywhere between tokens, values bare or quoted with their escapes, operators of the table; every other text is an error |
| `Language.SeparatorsBind` | rsql/parse.go:36-87 | comparisons and bracketed texts joined by ';', and such rows joined by ',', parse to the OR of the ANDs in the same order, a group of one being its operand |
| `Language.CharactersRead` | rsql/lex.go:27-175 | the eleven reserved characters, the backslash and the white space of Unicode, listed by code point, are the characters that cannot stand unescaped in a bare value; white space alone is skipped |
| `Numbers.FormatIntParses` | rsql/schema.go:181-182 | every int64 survives being printed and parsed |
| `Numbers.FormatIntInjective` | rsql/canonical.go:60 | different integers print differently |
| `Numbers.ParseIntIs` | rsql/schema.go:181-182 | exactly an optional sign and decimal digits with a value in the int64 range are taken, and the value is the sum of the digits times their powers of ten |
| `Numbers.FormatNatIs` | rsql/canonical.go:60 | integers print as decimal digits that stand for them, without leading zeros |
| `Numbers.ParseBoolTable` | rsql/schema.go:185-186 | the six texts of true and the six of false, and no others |
| `Schemas.Binder.Walk` | rsql/schema.go:107-130 | accepts exactly the trees whose comparisons fit the schema and whose height fits the depth limit; the counters then grew by the tree's comparisons and its operands beyond the first in OR groups |
| `Schemas.Binder.WalkAll` | rsql/schema.go:132-142 | the same for the operands of a group, in order |
| `Schemas.Binder.BindComparison` | rsql/schema.go:144-172 | accepts exactly a known selector, an allowed operator, one value unless the operator takes many, and values that all coerce |
| `Schemas.Bind` | rsql/schema.go:78-98 | succeeds exactly when the text parses, all comparisons fit the schema and height, comparisons and disjunctions are within their limits, zero or less meaning no limit |
| `Schemas.LeavesCountOperands` | rsql/schema.go:100-130 | comparisons are one more than the operands beyond the first, summed over all groups |
| `Acceptance.AcceptedIff` | rsql/schema.go:66-191 | for every expression, schema and limits: it is accepted exactly when it parses, each comparison fits its schema entry (known key, operator listed by the field or else offered by its kind, one value unless a list operator, each text listed and of the kind), no path of operands is longer than the depth limit, and operators and disjunctions counted in the text are within theirs |
| `Acceptance.SizeCountsSymbols` | rsql/schema.go:107-130 | the binder's counters are symbols of the text: one comparison for each operator, and one disjunction for each operator beyond the first that no ';' accounts for |
| `Schemas.AcceptedConforms` | rsql/schema.go:81-172 | every accepted filter has groups of two or more, selectors of the schema, allowed operators, the right number of values and values of the declared kind |
| `Schemas.FieldIsDeclared` | rsql/schema.go:144-151 | a comparison has its schema entry as it is when that declares a column, and otherwise with the selector as the column and nothing else changed |
| `Ordering.SortStrings` | rsql/canonical.go:40-50 | sorts in place into the one sorted permutation |
| `Ordering.SortIsSortedPermutation` | rsql/canonical.go:40-50 | the reference sort is sorted and has the same contents |
| `Ordering.SortForgetsOrder` | rsql/canonical.go:10-12 | equal contents sort to equal sequences |
| `Ordering.LeqIsLexicographic` | rsql/canonical.go:40-50 | a prefix sorts first, otherwise the first different character decides |
| `Canonicals.Canonical` | rsql/canonical.go:15-19 | builds the canonical string through a builder of its own |
| `Canonicals.WriteCanonical` | rsql/canonical.go:21-43 | appends the canonical string to what the builder holds |
| `Canonicals.WriteGroup` | rsql/canonical.go:45-52 | appends the bracketed, sorted and joined operands |
| `Canonicals.NormalKeepsCanon` | rsql/canonical.go:36-52 | sorting operands and values at every level does not change the canonical string |
| `Canonicals.CanonPrintsNormal` | rsql/canonical.go:36-52 | the canonical string is the plain print of the sorted tree |
| `Canonicals.SameGivesEqualCanon` | rsql/canonical.go:10-12 | filters equal up to permuting operands at any depth and values in any list have one canonical string |
| `Canonicals.EqualNormalGivesSame` | rsql/canonical.go:10-12 | filters with one sorted tree are equal up to order |
| `Literals.LiteralReadsBackIffSafe` | rsql/canonical.go:54-65 | a printed literal lexes to one value token with its own text, ending at the end of input, exactly for the safe texts |
| `Literals.SafeIsQuotedOrBare` | rsql/canonical.go:60-63 | the safe texts, written out (a reserved character, space, tab or newline inside; or not empty and without backslash and white space), are those that are quoted and those that need no quotes |
| `Literals.EscapeConcat` | rsql/canonical.go:61 | inside the quotes each backslash and each double quote gets a backslash in front and nothing else changes |
| `Literals.UnsafeMisreads` | rsql/lex.go:147-175 | an unsafe text in canonical output never lexes to its own value |
| `Literals.RawMisreads` | rsql/canonical.go:28-31 | a text with a reserved character, space, tab or newline that is printed raw, as selectors are, never reads back as itself before an operator or other reserved character that opens no value and no group |
| `Literals.BareLosesEscapes` | rsql/lex.go:155-169 | a bare token is as long as its text only if it has no escape, and then it is its text |
| `Echoes.PrintIsEcho` | rsql/canonical.go:21-52 | the print of any tree is the text of its parse tree's symbols, selectors raw and values as literals |
| `Echoes.AtomMeansUnbind` | rsql/canonical.go:12-14 | the fully bracketed parse tree of a bound tree means the syntax tree with the same structure |
| `RoundTrips.SafePrintParses` | rsql/canonical.go:54-65 | the print of a tree with bare selectors and safe values parses to that tree |
| `RoundTrips.ReturnsOnlyIfSafe` | rsql/canonical.go:28-65 | any tree that comes back from its own print has bare selectors and safe values only |
| `RoundTrips.QuotedTextParses` | rsql/lex.go:120-145 | with every selector and value in quotes any filter's text parses to that filter's syntax tree |
| `Rebinding.EveryFilterHasText` | rsql/schema.go:78-172 | every filter with the shape of an accepted one, within the limits, is accepted from some text |
| `Rebinding.TextCoercesBack` | rsql/schema.go:174-191 | a printed value coerces back to itself, unless an enumeration lists other texts only |
| `Rebinding.UnbindRebinds` | rsql/schema.go:144-191 | binding a filter's own syntax tree works exactly when enumerations list the printed values, and gives the filter |
| `Rebinding.NormalKeepsSize` | rsql/schema.go:100-142 | sorting changes none of the measures the limits bound |
| `Rebinding.CanonicalRoundTrips` | rsql/canonical.go:10-65 | binding the canonical form under the same schema and limits gives the filter with operands and values sorted at every level |
| `Rebinding.CanonicalRoundTripsIff` | rsql/canonical.go:28-65 | for every accepted filter, the canonical form comes back as the sorted filter if and only if selectors and values read back |
| `Validity.EndingRuns` | rsql/lex.go:147-175 | what a parser meets after an unquoted text: what follows it, that without its first character, or something that cannot stand there |
| `Validity.SelectorRuns` | rsql/canonical.go:28-31 | a selector without reserved characters lets the parse go on behind its operator exactly when it reads as one value |
| `Validity.ListRuns` | rsql/canonical.go:36-41 | a printed list that does not read as values leaves a group open or stops the parse |
| `Validity.TreeRuns` | rsql/canonical.go:21-52 | the same for a printed tree in any surroundings; a readable one lets the parse go on behind it |
| `Validity.CanonicalParsesIff` | rsql/canonical.go:54-55 | for selectors without reserved characters, the canonical form is valid RSQL if and only if each selector reads as one value and each argument list as one or more |
| `Decoding.ListStream` | rsql/canonical.go:36-41 | the symbols of a printed list: each text decoded, with items run together where a backslash swallows the ',' |
| `Decoding.TreeStream` | rsql/canonical.go:21-52 | a readable tree's print reads, in any surroundings, as the symbols of the tree it decodes to |
| `Decoding.CanonicalParsesTo` | rsql/canonical.go:28-65 | the canonical form parses to the decoded sorted filter if that is readable, and not at all otherwise |
| `Decoding.CanonicalBindsTo` | rsql/canonical.go:28-65 | binding it again under the same schema and limits returns the decoded filter if its texts fit the schema, and an error otherwise |
| `Decoding.ValidButAnother` | rsql/canonical.go:54-55 | a canonical form that is valid but does not read back parses to a tree that does not bind to the filter |
| `Limitations.UnsafeValuesDoNotRoundTrip` | rsql/canonical.go:60-63 | for every unsafe text there is an accepted filter for it that does not come back |
| `Limitations.UnsafeSelectorsDoNotRoundTrip` | rsql/canonical.go:28-30 | for every text that is not bare there is a schema with that key and an accepted filter on it that does not come back |
| `Limitations.RejectedCanonicalForms` | rsql/canonical.go:54-55 | three accepted filters whose canonical form does not parse |
| `Limitations.SpacedSelectorIsRejected` | rsql/canonical.go:28-30 | the accepted filter on the key `a b`, whose canonical form does not parse |
| `Limitations.BackslashReadsAsAnother` | rsql/canonical.go:60-63 | an accepted filter whose canonical form is accepted as a filter on another value |
| `Limitations.ListSwallowsComma` | rsql/canonical.go:36-41 | an accepted filter on two values whose canonical form is accepted as one on a single value |
| `Limitations.RawSelectorReadsAsAnother` | rsql/canonical.go:28-30 | an accepted filter on one key whose canonical form is accepted as a filter on two other keys |
| `Limitations.KeysCanClash` | rsql/canonical.go:10-12 | with a key that starts like a comparison on another: two accepted filters of one schema with one canonical string, and a record that one selects and the other does not |
| `Limitations.BracketKeysCanClash` | rsql/canonical.go:10-12 | the same with a key that starts with '(' |
| `Limitations.RewriteAppliesTwice` | rsql/tree.go:44-58 | a function and a tree on which a comparison is rewritten twice |
| `Limitations.EmptyValueDoesNotRoundTrip` | rsql/canonical.go:60-63 | `a==""` is accepted, prints as `a==`, and that is rejected |
| `Limitations.EnumeratedTextsDoNotRoundTrip` | rsql/schema.go:175-187 | for every text that coerces to a value printing differently, a field that enumerates it accepts it and does not take its canonical form back |
| `Limitations.EnumeratedNumberDoesNotRoundTrip` | rsql/schema.go:175-182 | the integer 7 enumerated as `007` is an instance |
| `Injectivity.LiteralPrefix` | rsql/canonical.go:54-65 | where a printed literal ends, and its value, can be told from the text, for every value |
| `Injectivity.SelectorPrefix` | rsql/canonical.go:28-31 | a raw selector and the operator after it can be told from the text when neither key starts like a comparison on the other |
| `Injectivity.PrintPrefix` | rsql/canonical.go:21-52 | printed filters of one schema whose keys can be told apart are uniquely readable inside any longer print |
| `Injectivity.EqualCanonIffSame` | rsql/canonical.go:10-14 | for filters of one schema whose keys can be told apart, equal canonical strings and equality up to order are the same thing |
| `Trees.Combine` | rsql/tree.go:11-42 | the loop builds the group of the flattened non-nil operands, unwrapped when it is one and nil when it is none |
| `Trees.All` | rsql/tree.go:3-6 | the same for conjunction |
| `Trees.Any` | rsql/tree.go:8-9 | the same for disjunction |
| `Trees.CombinedMeans` | rsql/tree.go:3-42 | the result means the conjunction or disjunction of the operands that are not absent, for any operands |
| `Trees.GroupMeaningIs` | rsql/tree.go:3-9 | that meaning, said of all operands at once |
| `Trees.CombinedNests` | rsql/tree.go:11-42 | combining in two steps is combining at once, and groups keep at least two operands |
| `Trees.CombinedUnit` | rsql/tree.go:3-42 | nil is the identity and a sole operand is returned as it is |
| `Trees.CombinedAssociative` | rsql/tree.go:3-42 | All and Any are associative |
| `Trees.Rewrite` | rsql/tree.go:44-58 | rebuilds the tree bottom-up as the recursive definition does |
| `Trees.RewriteAll` | rsql/tree.go:60-66 | the same for a list of operands, in order |
| `Trees.RewrittenIsTidy` | rsql/tree.go:44-66 | for any tree and any function that makes tidy trees of tidy trees, on groups too, the result has no AND under AND, no OR under OR, no group of fewer than two operands and no nil inside |
| `Trees.RewrittenIsResult` | rsql/tree.go:44-58 | whatever holds of all results of the function holds of the rewrite of any tree that is not nil, so that the function has the last word on groups as well |
| `Trees.RewrittenDropsGroups` | rsql/tree.go:44-66 | a function that drops the groups failing a test and leaves the rest gives the comparisons and the meaning that are left with those groups absent, and no group in the result fails |
| `Trees.DroppingAlternatives` | rsql/tree.go:44-58 | dropping each OR of `(a,b);c` leaves `c` |
| `Trees.ReplacesLeavesIff` | rsql/tree.go:44-58 | a function on comparisons replaces each comparison of every tree by its result, and drops those it sends to nil, if and only if it drops none or is idempotent |
| `Trees.NoDropSettles` | rsql/tree.go:44-66 | without drops nothing collapses, so no comparison is rewritten twice |
| `Trees.IdempotentSettles` | rsql/tree.go:44-66 | an idempotent function leaves every sole survivor as it is |
| `Trees.RewrittenKeepsLeaves` | rsql/tree.go:44-66 | when the function leaves sole survivors alone, the comparisons of the result are, in order, those that the function makes of the original ones, by dropping, replacing or expanding them |
| `Trees.RewrittenMeans` | rsql/tree.go:44-66 | under the same condition the result means the original with each comparison meaning what the function makes of it, and the dropped ones absent, each group falling back on its neutral element |
| `Trees.RewritePreservesMeaning` | rsql/tree.go:44-66 | a function that keeps the meaning of every node that has one makes a rewrite that keeps the meaning of any tree without nil or short groups, and of any tree if it also keeps absent nodes absent |
| `Injectivity.EqualCanonGivesEqualNormal` | rsql/canonical.go:10-14 | and then their sorted trees are equal |
| `Mongo.ToFilter` | rsql/mongox/mongox.go:17-38 | the document has the tree's structure, and nil is an error |
| `Mongo.Each` | rsql/mongox/mongox.go:40-50 | one document per operand, in order, or an error |
| `Mongo.NilIsUntranslatable` | rsql/mongox/mongox.go:37-50 | a tree fails to translate exactly when there is a nil in it |
| `Mongo.AcceptedTranslates` | rsql/mongox/mongox.go:20-76 | translation of an accepted filter never fails and never reads a missing value |
| `Mongo.TestHolds` | rsql/mongox/mongox.go:52-76 | each operator's document test agrees with the comparison on the stored values, for scalars, arrays and missing fields |
| `Mongo.TranslationPreservesMeaning` | rsql/mongox/mongox.go:17-76 | for every accepted expression and record, the document selects the record exactly when the syntax tree of the expression holds of it, each key standing for its declared column or, without one, for itself |
| `Mongo.TranslationEvaluates` | rsql/mongox/mongox.go:17-76 | the same from the bound tree |
| `Mongo.EqualKeysSelectAlike` | rsql/canonical.go:10-14 | two accepted filters of one schema with one canonical string select the same records, if the keys they use can be told apart |
| `Selection.IntegerTextsSelect` | rsql/ast.go:19-28 | for each comparison operator under each of its names, the text of key, operator and decimal digits is accepted, and its document selects a record exactly when an integer stored there, alone or in an array, stands in that relation; for `!=`, when the integer is not stored |
| `Selection.IntegerTextsSelectOne` | rsql/mongox/mongox.go:55-68 | against a record with the single integer i, `key>n` selects exactly when i > n, and so for the other operators and names |
| `Selection.StringTextsSelect` | rsql/mongox/mongox.go:55-58 | equality and inequality on strings, under both names, on scalars, arrays and missing fields |
| `Selection.ListTextsSelect` | rsql/mongox/mongox.go:67-72 | `=in=` selects when one of the listed values is stored, `=out=` and `=nin=` when none is |
| `Selection.BoolTextsAsk` | rsql/schema.go:185-186 | each of the twelve bool texts is accepted and asks for its value |
| `Selection.NamedOperators` | rsql/parse.go:89-112 | of the letters between two '=', exactly the names of the table parse |
| `Mongo.MeaningIsEval` | rsql/tree.go:44-46 | on accepted filters the three-valued meaning used for rewriting is evaluation |
| `Mongo.RewrittenConforms` | rsql/tree.go:44-66 | rewriting an accepted filter by a function that stays in the schema gives nil or a filter with the guarantees of an accepted one |
| `Mongo.RewrittenSelects` | rsql/tree.go:44-66 | and when the function leaves sole survivors alone, its document selects what the original means with each comparison meaning what the function makes of it |
| `ClientIps.CheckTrust` | httpx/ip.go:99-109 | an address is trusted exactly when some prefix contains it, and a nil resolver trusts nothing |
| `ClientIps.NewIPResolver` | httpx/ip.go:20-44 | building succeeds exactly when every entry that is not blank is a prefix or an address, and the resolver then trusts exactly the addresses that some such entry covers |
| `ClientIps.ClientIP` | httpx/ip.go:46-80 | a peer text that is no address is returned as it is; a peer that no configured prefix contains, or with no header, is the answer whatever the header lines; otherwise the rightmost hop of the joined lines that is not a configured address is the answer if it is an address, and the peer if it is not or if there is no such hop |
| `ClientIps.ParseHopDenotes` | httpx/ip.go:82-97 | a text stands for an address as it is or as host and port, unmapped and without zone, and for nothing else |
| `ClientIps.TrimSpaceIs` | httpx/ip.go:71 | trimming takes the spaces off both ends and nothing else |
| `ClientIps.SplitIsUnique` | httpx/ip.go:69 | the hops are the only texts without commas that the commas join to the header |
| `ClientIps.CoversIs` | httpx/ip.go:20-44 | what an entry covers, in the library's terms: as a prefix, or else as the prefix of one address; blank entries cover nothing |
| `ClientIps.ScanReportsRightmostStop` | httpx/ip.go:69-79 | the answer is that of the rightmost hop that is not a parsed and trusted address: its address if it parses, otherwise the peer; and the peer when there is no such hop |
| `ClientIps.ScanIgnoresLeft` | httpx/ip.go:46-50 | hops left of the stopping hop do not matter |
| `ClientIps.ForgedPrefixIgnored` | httpx/ip.go:46-50 | any text and a comma put in front of the header leave the answer unchanged when the scan of the header stops at some hop, whoever the peer is |
| `ClientIps.ForgedLineIgnored` | httpx/ip.go:46-67 | the same for a header line sent first |
| `ClientIps.SplitOfJoin` | httpx/ip.go:62-69 | joining header lines and splitting gives the hops of the lines in a row |
| `ClientIps.RegroupingKeepsAnswer` | httpx/ip.go:62-79 | dividing the same chain into other field lines gives the same answer (section 3.2.2 of RFC 7230) |

## Left out

- Float and time fields: parsing and printing them is library behaviour; the kinds here are string, int and bool, so the unsupported-kind error does not arise.
- Error texts and the positions in them; results are a value or an error.
- `Lexing.Lexer.Next`: where the read position stands after an error is left open, because nothing reads on from there.
- `Schemas.Binder.Walk`: what the counters hold after a failure is left open, because `Bind` discards them.
- `Parsing.Parser.ParseOr`: the source passes the operand parser and the separator to one `parseBinary`; here its loop is written once per level.
- `Validity.CanonicalParsesIff`: leaves open which filters stay valid when a selector contains a reserved character, because such a selector is read as part of the expression around it; `Rebinding.CanonicalRoundTripsIff` covers those selectors.
- `Injectivity.PlainKeys`: schemas outside it can clash but need not, since the rest of such a key would have to print as other operands of the schema.
- `Trees.RewrittenKeepsLeaves`: what a function that is not idempotent makes of a sole survivor is left as repeated application; the condition says when there is none.
- Invalid UTF-8: texts are sequences of decoded runes.
- Which runes outside ASCII are letters is left unspecified; every result holds for any choice.
- Typed nils and shared nodes: trees are values with an explicit nil.
- `Ordering.SortStrings`: the library's sorting algorithm is not modelled; an insertion sort stands in for it.
- Operators that are not one of the eight: no parse produces them, so the errors for them in the translation do not arise.
- `Mongo.ToFilter`: requires a value wherever one is indexed, as the source does; `Mongo.AcceptedTranslates` shows accepted filters meet this.
- The database server: only the emitted operators, with equality against an array meaning "contains"; range tests compare values of one type.
- Columns named like a query operator: documents are a datatype, so a column cannot clash with one.
- Parsing and printing of addresses, prefixes and host-port pairs: parameters of the scan.
- The rest of the repository (other `httpx` files, `fiberx`, `emberx`, `errorsx`, `money`, `caller`, `log`, `uuid`): wrappers over libraries, header plumbing and context values, with no algorithm of their own.
