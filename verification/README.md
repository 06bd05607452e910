# A verified model of the puppetdb package

This project models the whole path of a PuppetDB query and of a PuppetDB command through the Go
package: the lexer and the recursive-descent parser of the query language (PQL), the compiler
from queries to the JSON query AST and the parser back, the evaluator with grouping and
aggregates, command ingestion into the in-memory store, and the save to disk. To check
everything, run `dafny verify dfyconfig.toml` in this directory.

Code that is expressions and recursion in Go is functions and lemmas here. Code that moves a
cursor, loops or writes in place is a class or a method with the same loops, proved against a
function: `Lexer.Scanner`, `Parser.Cursor`, the loop methods of `Compile`, `AstQuery`,
`Aggregate` and `Evaluator`, `Sorting.SortInPlace`, and the class `Stores.Store`, whose rows are
objects that commands write to. The main results are about those functions:

- **Front end.** A text is lexed exactly when tokens are spelled out in it. A token list is accepted
  exactly when the stratified grammar derives it, the derivation is unique, and the queries that
  some text denotes are exactly those satisfying `Printer.Expressible`. The parser inverts a
  printer; every derivation, with whatever spellings, parentheses and clauses, is rewritten to the
  printed one of the query it denotes, which has the fewest parentheses and field lists.
- **Wire.** Compiling a query, sending the JSON and parsing it gives the query's normal form
  exactly for the well-formed queries with finite literals, integers that float64 represents,
  strings that are UTF-8 and no more nesting than the decoder takes. A document is accepted exactly
  when it is one of a grammar of documents, and compiling the query read from it gives the document
  with its clauses in order and only what takes effect. Parsing any accepted document lands in
  normal form, and clause order is free.
- **Meaning.** Two reference interpreters, of texts by their words and symbols and of JSON
  documents by their heads, give what the evaluator gives on every row. An `in` test is a semijoin
  with the answer of its subquery. A query and its normal form evaluate to the same rows or fail
  with the same error, so a query text keeps its meaning across the wire when its numbers, strings
  and depth survive it. However and/or clauses are nested, the error reported is that of the first
  clause to fail. Ordering is the unique stable sort exactly where the comparison orders the
  columns: nil first, then numbers by size or strings bytewise, the other way round with `desc`.
  Pages add up; groups partition the rows, one for each tuple they hold, each shown with its
  tuple, and totals add up.
- **Ingestion.** After any run of commands each certname's rows are what its own accepted
  commands say, column by column; commands for different certnames commute; the entities agree
  with each other, and every event names a report of its certname.
- **Answers and crashes.** A query answer encoded after the lock is released is still the
  evaluation at the moment of the read, except for answers made of node rows: these keep the
  places selected at the read and take the columns each row has when it is encoded, every one of
  them with a row can be changed by some command, and they can tear. After a crash at any step the
  saved file can be opened exactly when its rows are not nested too deeply; then the reopened store
  is what the saved commands make of an empty one, every command answered with success is among
  them, and queries cannot tell the two stores apart exactly when the saved facts and catalogs that
  stand carry their values and parameters.

## Files

`Wrappers`, `Seqs`, `Numbers`, `Text`, `NumberTexts`, `Utf8`, `Keys`, `Sorting` hold what several
components need. `Ast`, `Json`, `Compile`, `AstStrings`, `AstQuery`, `AstRoundTrip`,
`AstNormalForm`, `AstDepth`, `DeepQueries`, `AstClauses`, `Documents`, `DocumentMeaning` are the
wire. `Lexer`, `LexerProofs`, `StringLiterals`, `NumberLiterals`, `Spellings`, `Grammar`, `Descent`,
`GrammarProofs`, `Parser`, `Printer`, `PrinterProofs`, `Groupings`, `Rewriting`, `TextMeaning`,
`EndToEnd` are the front end; `Descent` is the parser as a function that returns derivation trees,
`Parser` the program's cursor. `Values`, `Meanings`, `Fields`, `Aggregate`, `Evaluator`, `Filters`,
`Membership`, `Semantics`, `Ordering`, `Outputs`, `Grouping`, `GroupedOutput`, `Faults`, `Reloaded`
are evaluation. `FactPaths`, `Commands`, `History`, `Provenance`, `Interleavings`, `StoreRows`,
`Consistency`, `Stores`, `Responses`, `Exposure`, `Snapshots`, `SnapshotFiles`, `Recovery`,
`Reopening`, `Payloads`, `ReopenedQueries` are the store.

## Where the code and its documentation differ

- compile.go:104-105 says encoding never fails on the value types used. It fails on an infinite
  literal, which `x < 1e999` contains because parser.go:594 drops the range error; the result is
  an empty document. See `AstNormalForm.InfiniteLiteralLost` and `EndToEnd.SomeTextHasNoJson`.
- astquery.go:16-20 calls ParseAST the inverse of Query.AST up to re-association. The exact
  statement needs a normal form (`!=` and `!~` become `not`, and function arguments lose their
  string/field flag), integers that float64 represents, since astquery.go:495-499 reads limits as
  float64, strings that are UTF-8 (the lexer takes any bytes, lexer.go:230-256, and the encoder
  replaces those that are not UTF-8), and at most 10000 levels of nesting, where encoding/json
  stops decoding: `a = 1 or a = 1 or ...` nests as deeply as it has clauses. See
  `AstNormalForm.RoundTrip`, `AstNormalForm.LimitLost`, `AstNormalForm.BytesLost`,
  `Semantics.BytesChangeMeaning`, `EndToEnd.SomeTextIsTooDeep` and `DeepQueries.FlatDocumentLost`.
- persist.go:13-14 says a snapshot round-trips through Load. A facts command without values puts a
  nil map in the inventory row (command.go:102-108), and a resource without parameters one in its
  own (command.go:228). A nil map in an interface is not nil to the null test (store.go:274-281),
  is saved as null, and is nil after Load, so `inventory { facts is null }` finds the row only
  after a restart: see `ReopenedQueries.MissingValuesShow`. And a fact nested more than three levels
  short of the decoder's limit is saved and answered with success, and the file cannot be opened:
  see `Reopening.DeepFactsAreLost`.
- store_test.go:186-187 says the grammar cannot produce a multi-field membership in a literal
  list. It can: see `PrinterProofs.FieldListInLiteralListParses`.
- server.go:160-168 encodes rows after releasing the read lock. For a query on `nodes` without
  projection or aggregation the answer may be no state the store ever had: see
  `Exposure.TornAnswer`.

## Model

| member | source | states |
|---|---|---|
| Numbers.FloatKeepsExactly | astquery.go:491-500 | converting an integer to float64 keeps it exactly when 53 significant bits hold it |
| Numbers.ExactMeansRepresentable | astquery.go:491-500 | the integers kept are exactly those of the form m times a power of two with m below 2^53 |
| Numbers.FloatIsNearest | astquery.go:491-500 | an integer is converted to the float64 that none is nearer than, ties to the even significand |
| Compile.CompileQuery | compile.go:17-58 | the appending loops of Query.AST build exactly the tree of the specification |
| Compile.CompileProjList | compile.go:62-68 | the loop compiles every projection item in order |
| Compile.CompileGroupBy | compile.go:72-82 | the group_by clause lists every item, and is absent for an empty list |
| Compile.CompileFunc | compile.go:95-101 | a function compiles to its name followed by its arguments in order |
| AstQuery.LogicalFromLoop | astquery.go:306-322 | the loop over the clauses of an n-ary document is the left fold, and stops at the first clause that cannot be read |
| AstQuery.ApplyOrderByLoop | astquery.go:134-157 | the order_by loop appends every term or fails at the first bad one |
| AstQuery.ApplyExtractLoop | astquery.go:177-209 | the loop over an extract node sets the projection and takes at most one filter beside group_by |
| AstQuery.ApplyRestLoop | astquery.go:79-110 | the clause loop, with its inner and group_by flags, is the specification's recursion over the clauses |
| AstDepth.DepthOfQueryAst | compile.go:17-58 | the compiled query is nested n levels or less exactly when the query's own depth is at most n |
| AstRoundTrip.QueryWire | compile.go:17-58 | what decoding and parsing a compiled query gives, for every query: the normal form with rounded integers and replaced bytes, or an error, when encoding fails, and when the document is nested too deeply to decode |
| AstRoundTrip.ExprWire | compile.go:116-192 | the same for every filter expression, including nested subqueries |
| AstNormalForm.RoundTrip | astquery.go:16-64 | parse of compile is the normal form if and only if the query is well formed, its literals are finite, its integers are float64 values, its strings are UTF-8 and it is nested at most 10000 levels |
| AstNormalForm.RoundTripWithinFloat | astquery.go:491-500 | limits and offsets up to 2^53 always come back from a query the decoder takes |
| AstNormalForm.LimitLost | astquery.go:491-500 | limit 2^53+1 comes back as 2^53 |
| AstNormalForm.InfiniteLiteralLost | compile.go:104-112 | a query with an infinite literal does not survive encoding |
| AstNormalForm.BytesLost | lexer.go:230-256 | a string literal comes back with the bytes that are not UTF-8 replaced |
| AstStrings.CleanQueryAst | compile.go:17-58 | replacing bytes in the compiled tree is compiling the query with bytes replaced, at every depth |
| Utf8.SanitizedKeepsExactly | compile.go:104-112 | the encoder keeps a string exactly when it is UTF-8 |
| AstNormalForm.NormalQueryAst | compile.go:125-192 | a query and its normal form compile to the same JSON |
| AstNormalForm.RecompileIsIdentical | astquery.go:16-64 | recompiling what was parsed back gives the identical JSON, under the conditions of the round trip |
| AstNormalForm.SameJsonIffSameNormalForm | compile.go:17-58 | two well-formed queries compile to the same JSON exactly when their normal forms are equal |
| AstNormalForm.ParsedQueryIsCanonical | astquery.go:43-209 | every accepted document yields a query in normal form with nothing but its depth to keep it from the wire |
| AstNormalForm.ParsingIsIdempotent | astquery.go:79-110 | compiling and reparsing the result of any accepted document changes nothing if and only if that result is nested at most 10000 levels |
| DeepQueries.ManyClausesLost | astquery.go:306-322 | an accepted document with 10000 or more clauses under one and/or folds to a query that does not come back |
| DeepQueries.FlatDocumentLost | astquery.go:306-322 | such a document three levels deep |
| AstClauses.ClauseOrderIsFree | astquery.go:76-110 | with no clause kind repeated, every permutation of the clauses parses to the same query or fails alike |
| AstClauses.Exchange | astquery.go:79-131 | two independent clauses can change places from any state of the clause loop |
| Documents.QueryIsTidy | astquery.go:44-209 | a document is accepted if and only if the grammar of documents has it, and the query read from it compiles to the document with its clauses in order, n-ary clauses nested and only what takes effect |
| Documents.ExprIsTidy | astquery.go:263-450 | the same for filters |
| Documents.DocumentsOfOneQuery | astquery.go:16-64 | two accepted documents are one query exactly when they are rewritten to one document |
| DocumentMeaning.FilterMeans | astquery.go:263-450 | every accepted filter document is evaluated on every row as a reference interpreter of its heads does |
| DocumentMeaning.DocumentSays | astquery.go:79-209 | an accepted document sets its entity, columns, last group_by, all order_by terms with their directions, last limit and offset and only filter |
| DocumentMeaning.FilterDocMeans | astquery.go:161-209 | the rows a query document selects are those on which the interpreter's test of its filter holds |
| Text.SplitDotsLoop | store.go:182-192 | the segment loop returns the segments between the dots |
| Text.SplitJoin | store.go:182-192 | splitting inverts joining segments without dots |
| Text.JoinSplit | store.go:182-192 | joining the segments gives back the field |
| Text.NonNegIntInverse | parser.go:638-652 | every int64 from zero on is read back from its decimal text |
| Lexer.LexLoop | lexer.go:46-59 | the driver loop produces the specified tokens, ended by the only end marker |
| Lexer.Scanner.Next | lexer.go:78-140 | one call skips blanks and reads exactly one token of the specification, moving the cursor to its end |
| Lexer.Scanner.LexString | lexer.go:230-256 | the builder loop returns the decoded text and stops behind the closing quote, or fails at the end of the input |
| Lexer.Scanner.LexNumber | lexer.go:182-208 | the cursor stops behind the longest number, or fails where a digit is missing |
| Lexer.Scanner.LexIdent | lexer.go:167-178 | the cursor stops behind the longest identifier and an optional question mark |
| LexerProofs.DoubleQuotedDenotesAll | lexer.go:230-278 | every byte string has a double-quoted literal that decodes to exactly it |
| LexerProofs.StringsDenoted | lexer.go:230-278 | a single-quoted literal denotes a string if and only if its backslashes pair up from the left, none with an apostrophe |
| LexerProofs.LexRender | lexer.go:46-140 | every list of valid tokens is the lexing of its rendering |
| LexerProofs.LexedTokensAreValid | lexer.go:46-140 | the lexer produces valid tokens only |
| StringLiterals.ReadsExactlyLiterals | lexer.go:230-278 | a string literal is read if and only if it is bytes and escapes up to the closing quote, and denotes what they mean, `\n`, `\t` and `\r` the controls |
| NumberLiterals.NumbersAreNumerals | lexer.go:182-226 | the number texts are exactly a sign, digits, a fraction and a power of ten, in this form |
| NumberLiterals.NumeralDenotes | parser.go:588-596 | a number text denotes its digits scaled by its fraction and power, or an infinity |
| NumberLiterals.CountsAreNumerals | parser.go:638-652 | a limit or offset is read from digits alone, below 2^63, minus only before zero |
| Spellings.LexesOneToken | lexer.go:78-140 | the next token is the one whose spelling the text starts with and does not continue |
| Spellings.LexesExactly | lexer.go:46-59 | a text is lexed to a token list if and only if it is spellings of the tokens with blanks between them |
| Descent.ParseTokens | parser.go:63-77 | an accepted token list is the yield of the derivation returned |
| Descent.ParseOr | parser.go:345-359 | or-expressions: the derivation found is left-associative and yields the tokens consumed |
| Descent.ParseAnd | parser.go:362-376 | the same for and-expressions, one level tighter |
| Descent.ParsePrim | parser.go:393-435 | a primary consumes the yield of its derivation, with two tokens of lookahead in bounds |
| Descent.ParseQuery | parser.go:120-153 | a query consumes the yield of its derivation, clauses inside and after the braces included |
| GrammarProofs.QueryIsRead | parser.go:120-153 | every derivation of a query is found again from its yield, stopping exactly at the token that follows |
| GrammarProofs.OrIsRead | parser.go:345-359 | the same for expressions |
| GrammarProofs.AcceptsExactlyTheGrammar | parser.go:63-77 | a token list is accepted if and only if a derivation exists |
| GrammarProofs.GrammarIsUnambiguous | parser.go:341-435 | no token list has two derivations |
| Parser.Parse | parser.go:63-77 | lexer and cursor together compute the specified front end |
| Parser.ParseAll | parser.go:63-77 | the cursor parser returns the value of the derivation, or fails when there is none |
| Parser.Cursor.Peek | parser.go:80 | the cursor always stands on a token: the end marker bounds every lookahead |
| Parser.Cursor.Advance | parser.go:83-89 | the cursor moves by one token, and stays on the end marker |
| Parser.Cursor.ParseQueryExpr | parser.go:120-153 | the routine returns the derivation's query and leaves the cursor behind it |
| Parser.Cursor.ParseWhereFilter | parser.go:157-170 | the filter is absent before a closing brace or a clause word |
| Parser.Cursor.ParseAllClauses | parser.go:188-214 | the clause loop applies every clause in order, later ones overwriting limit and offset |
| Parser.Cursor.ParseOrExpr | parser.go:345-359 | the loop rebuilding its left operand gives the left-associated tree |
| Parser.Cursor.ParseAndExpr | parser.go:362-376 | the same for and |
| Parser.Cursor.ParseNotExpr | parser.go:379-390 | `not` negates the operand that follows |
| Parser.Cursor.ParsePrimary | parser.go:393-435 | parenthesised expressions, field lists, implicit subqueries and field tests, told apart by two tokens |
| Parser.Cursor.ParseImplicitSubquery | parser.go:440-455 | entity, braces, optional filter |
| Parser.Cursor.ParseComparison | parser.go:459-472 | an operator and a literal |
| Parser.Cursor.ParseRegexpList | parser.go:476-496 | a nonempty list of string patterns |
| Parser.Cursor.ParseNullTest | parser.go:499-510 | `is null` and `is not null` |
| Parser.Cursor.ParseMembership | parser.go:513-536 | membership in a literal list or in a projected subquery |
| Parser.Cursor.ParseProjItem | parser.go:269-284 | a dotted field or a known function with its arguments |
| Parser.Cursor.ParseNonNegInt | parser.go:638-652 | a number token that is a non-negative int64 |
| PrinterProofs.ParserInvertsPrinter | parser.go:120-215 | parsing the printing of a query gives exactly that query and stops at the next token |
| Groupings.QueryIsMinimal | parser.go:341-435 | no derivation of a query, from any text, has fewer parentheses and field lists than the printed one |
| Groupings.ShieldIsNeeded | parser.go:157-185 | a filter that would begin with a clause word needs one pair of parentheses more |
| Rewriting.QueryIsPlain | parser.go:120-215 | dropping `asc`, redundant parentheses and field lists, moving the clauses behind the braces and keeping what takes effect turns every derivation into the printed one of the query it denotes |
| Rewriting.RewritingDecides | parser.go:120-215 | two derivations denote one query exactly when they are rewritten to one |
| Rewriting.TextsOfOneQuery | parser.go:63-77 | the same for texts |
| Rewriting.ClausesTakeEffect | parser.go:188-214 | of all clauses the order-by terms add up and the last of each other kind counts |
| TextMeaning.OrMeans | parser.go:342-536 | every filter is evaluated on every row as a reference interpreter of its words and symbols does, operands from left to right |
| TextMeaning.TextSays | parser.go:120-341 | a query sets the entity it names, its columns, its last group-by, its order-by terms with their directions, its last limit and offset |
| TextMeaning.FilterSays | parser.go:157-170 | and selects the rows on which the interpreter's test of its filter holds |
| PrinterProofs.TextParsesBack | parser.go:63-77 | the printed text of an expressible query parses to exactly it |
| PrinterProofs.PqlExpresses | parser.go:63-77 | the queries that some text denotes are exactly the expressible ones, whose number literals are the infinities and the decimal fractions in range |
| PrinterProofs.LeadingNotIsNegation | parser.go:379-390 | a field whose first segment is `not` cannot open a test |
| PrinterProofs.LeadingClauseWordIsClause | parser.go:157-185 | a query whose body starts with a clause word has no filter |
| PrinterProofs.SubqueryTakesClauses | parser.go:147-153 | clauses after a subquery's closing brace belong to the subquery |
| PrinterProofs.FieldListInLiteralListParses | parser.go:406-411 | several fields before a literal list do parse |
| EndToEnd.TextDenotes | parser.go:63-77 | a text is accepted with a query if and only if it spells out the tokens of a derivation that denotes the query |
| EndToEnd.TextMeans | store.go:36-88 | a text selects the rows on which its filter holds, tested by its words and symbols |
| EndToEnd.TextKeepsMeaning | store.go:36-73 | a query text evaluated directly, or compiled, sent, parsed and then evaluated, gives the same rows or failure, when its numbers, strings and depth survive the wire |
| EndToEnd.SomeTextHasNoJson | parser.go:588-596 | some accepted text compiles to a query without a JSON text |
| EndToEnd.SomeTextIsTooDeep | parser.go:345-359 | some accepted text, with nothing else wrong, compiles to a document nested too deeply to decode |
| NumberTexts.DenotableIsSpelled | parser.go:588-596 | some number text denotes a number if and only if it is an infinity or a decimal fraction in the float64 range |
| NumberTexts.InfinityIsDenotable | parser.go:588-596 | the literal 1e999 denotes infinity |
| NumberTexts.IntegersAreDenotable | parser.go:588-596 | every integer below the float64 range is denoted by its decimal text |
| Values.CompareIsAntisymmetric | values.go:80-94 | exchanging the operands of compareAny negates it |
| Values.StringLessTransitive | values.go:49-75 | the bytewise string order is transitive |
| Filters.FieldIsPath | store.go:164-178 | a dotted field is a lookup along its segments, like a fact path |
| Filters.StringTests | store.go:196-243 | on strings the operators agree with equality and one bytewise order |
| Filters.NumberTests | store.go:196-243 | on numbers, integers or floats, the operators agree with the order of the reals and the infinities |
| Filters.OtherKindTests | store.go:196-243 | a missing field or a value of another kind is only unequal |
| Filters.RegexpTests | store.go:211-222 | `~` finds its pattern in a string, `!~` negates it, and a bad pattern is an error on every row |
| Filters.RegexpArrayTests | store.go:345-368 | `~>` tests the elements one by one as `~` tests a string |
| Filters.NullTests | store.go:274-281 | `is null` is membership in a list of null, `is not null` its negation |
| Filters.InListIsAnyEqual | store.go:285-306 | membership in a list is equality with some element, except for null and a missing field |
| Membership.InQueryIsAnyRow | store.go:285-327 | `in` with a subquery is the disjunction over its answer of the equalities with its columns, and an error exactly for a function, a wrong number of columns or a failing subquery |
| Membership.InQueryIsInArray | store.go:285-327 | with one field, it is `in` with the list of the column |
| Membership.InQueryIsSemijoin | store.go:309-327 | the outer query keeps exactly the rows whose tuple occurs in the answer of the subquery as a query of its own |
| Membership.InQueryFails | store.go:309-343 | and fails as the subquery does, if there is a row to test |
| Membership.OccursIsJoin | store.go:380-387 | with a plain subquery, the rows that join with a row it selects |
| Filters.ProjectedColumns | store.go:146-160 | a projected row has exactly the projected columns with the values of their fields |
| Outputs.ProjectionShows | store.go:146-160 | a plain query with a projection shows, row by row, the projected fields of its answer without one |
| Fields.DigFieldLoop | store.go:164-178 | the lookup loop finds the nested value or reports it missing |
| Fields.PlainFieldIsColumn | store.go:113-127 | for a field without dots, the flat lookup of orderRows and digField agree |
| Sorting.SortInPlace | store.go:113-127 | the exchanges in place give the insertion sort of the old contents |
| Sorting.InsertionSortIsStableSort | store.go:113-127 | on a weak order the result is sorted, a permutation, and keeps tied elements in order |
| Sorting.StableSortIsUnique | store.go:113-127 | every stable sort of the same list gives the same result |
| Evaluator.EvalLoop | store.go:49-73 | filter, aggregate or project, order and page: the program's loops compute the specified evaluation |
| Evaluator.FilterRowsLoop | store.go:76-88 | the filter loop keeps the matching rows, or fails at the first row whose test fails |
| Evaluator.OrderRowsInPlace | store.go:113-127 | the rows are sorted in place by the multi-term comparator |
| Evaluator.ApplyProjectionLoop | store.go:146-160 | the nested loops build one projected row for each row |
| Aggregate.AggregateLoop | aggregate.go:18-40 | one output row per group, or one in all |
| Aggregate.GroupRowsLoop | aggregate.go:44-60 | the map-building loop groups rows by key and sorts the keys |
| Aggregate.ComputeRowLoop | aggregate.go:92-113 | the output row's columns, later items overwriting earlier ones |
| Aggregate.AggFuncLoop | aggregate.go:117-136 | the dispatch to the aggregate loops |
| Aggregate.AggCountLoop | aggregate.go:140-153 | count of rows, or of rows with a non-nil value |
| Aggregate.AggSumLoop | aggregate.go:165-187 | sum and count of the numeric values, nil over none |
| Aggregate.AggAvgLoop | aggregate.go:190-199 | sum divided by count, nil over none |
| Aggregate.AggMinMaxLoop | aggregate.go:203-227 | the running best value |
| Semantics.NormalQueryMeansTheSame | store.go:196-327 | a query and its normal form give the same rows in the same order or both fail, through filters, subqueries and aggregates |
| Semantics.WireKeepsMeaning | astquery.go:16-64 | evaluating the reparsed query gives the same rows or failure, whenever the round trip holds |
| Semantics.BytesChangeMeaning | store.go:196-222 | for every string that is not UTF-8 some rows match the literal after the wire and not before |
| Semantics.NestingDoesNotMatter | store.go:246-262 | however and/or clauses are nested, evaluation is left-to-right short-circuit over them, and fails for all nestings or for none |
| Semantics.Reassociation | store.go:246-262 | re-association at any depth never changes the outcome |
| Semantics.NaryMeansShortCircuit | astquery.go:306-322 | an n-ary document evaluates as its clauses from left to right |
| Faults.QueryFaultIff | store.go:49-330 | an evaluation fails if and only if it has an error to report |
| Faults.FilterReportsFirst | store.go:76-88 | the error is that of the first row whose test fails |
| Faults.NestingKeepsFault | store.go:246-262 | however and/or clauses are nested, the error is the one of the clauses tested from left to right |
| Faults.ClausesReportFirst | store.go:246-262 | that error is the one of the first clause to fail |
| Faults.NaryReportsFirst | astquery.go:306-322 | the same for an n-ary document |
| Faults.NormalQueryFault | store.go:196-327 | a query and its normal form fail with the same error |
| Ordering.ColumnIsOrdered | values.go:80-94 | compareAny is a weak order on a column if and only if any two values that differ compare with all others |
| Ordering.MixedColumnIsNotOrdered | values.go:80-94 | a column of numbers and strings is not ordered |
| Ordering.UsualColumnsAreOrdered | values.go:80-94 | nulls with all numbers, all strings or all other values are ordered |
| Ordering.OrderIsTheStableSort | store.go:113-127 | on ordered columns the multi-term sort is the only stable permutation sorted by the values of the terms and their directions |
| Ordering.FilterIsFilter | store.go:76-88 | the filter fails if and only if some row's test does, and otherwise keeps exactly the matching rows |
| Ordering.PlainQueryPipeline | store.go:49-73 | a plain query is filter, then any stable sort by the values of the terms and their directions, then page, then projection |
| Ordering.PageIsSlice | store.go:130-142 | a page of any query is the slice of its unpaged result |
| Ordering.PagingConserves | store.go:130-142 | the pages at offsets 0, k, 2k and so on concatenate to the unpaged result |
| Outputs.PageShows | store.go:130-142 | of any query, with an offset, a limit, both or neither, the page has the rows from the offset on as far as the limit allows |
| Outputs.OutputIsSorted | store.go:113-127 | the answer of a query that shows its rows as it orders them is the stable sort by the values of the order-by columns |
| Outputs.OneTermArranges | store.go:113-127 | with one term the column has nil first, then numbers by size or strings bytewise; with `desc` it has so read backwards |
| Grouping.GroupRowsPartitions | aggregate.go:44-60 | the groups partition the rows in order, without empty groups, under ascending distinct keys |
| Grouping.SharesAddUp | aggregate.go:18-60 | whatever is added up per row, the groups' totals add up to the total |
| Grouping.GroupedTotalsAddUp | aggregate.go:140-187 | grouped counts and sums add up to the ungrouped ones |
| Grouping.GroupedQueryAddsUp | store.go:49-73 | the same for whole queries, in any order of the output |
| Grouping.BestIsFirstExtreme | aggregate.go:203-227 | min and max are the value of the first row that no row betters |
| GroupedOutput.UngroupedShows | aggregate.go:18-40 | functions without group-by give one row with their values over all selected rows, and plain columns of the first |
| GroupedOutput.GroupedShows | aggregate.go:18-113 | output row i shows, in its plain columns, the fields of the first row of group i, and its functions over the group |
| GroupedOutput.GroupsAreTuples | aggregate.go:18-113 | where keys tell tuples apart there is one output row for each tuple of group-by values, showing it, with its functions over exactly the rows that hold it |
| GroupedOutput.GroupsAscend | aggregate.go:44-86 | grouped by one field, the output comes kind by kind, strings bytewise |
| GroupedOutput.OtherValuesAreSkipped | aggregate.go:140-199 | sums and averages are taken over the rows with a number, counts of a field over those with a value |
| GroupedOutput.AverageTimesCount | aggregate.go:140-199 | average times count is the sum |
| GroupedOutput.ExtremesAreExtreme | aggregate.go:203-227 | min and max are values of the column that none comes before, or after |
| Grouping.AverageIsBetween | aggregate.go:190-227 | on numbers min <= avg <= max |
| Grouping.KeyIsInjective | aggregate.go:77-86 | on scalars whose floats are rendered differently, the key encoding is injective when all columns but the last are free of NUL bytes |
| Grouping.SameGroupIffSameValues | aggregate.go:64-86 | two rows share a group if and only if they agree on every group-by column |
| Grouping.DecimalIsFaithful | aggregate.go:77-86 | a decimal rendering of whole numbers meets those conditions |
| Grouping.SharedKeyIff | aggregate.go:77-86 | two tuples of scalars share a key if and only if they agree up to a column where both hold strings and one string goes on, after the other and a NUL byte, with the text of that tuple's remaining columns |
| Grouping.NulCollides | aggregate.go:77-86 | for any three strings, two such tuples |
| FactPaths.SortKeys | command.go:412-419 | the keys come out ascending, each once, whatever the map order |
| FactPaths.FlattenFact | command.go:131-150 | the recursion with its appending loops lists exactly the leaves under the path |
| FactPaths.LeavesAreLookups | command.go:131-150 | a path and value are a leaf if and only if the path leads to that scalar |
| FactPaths.LeavesAreInOrder | command.go:131-150 | leaves come in key and index order |
| FactPaths.PathLessIsNoPrefix | command.go:131-150 | ordered paths differ and neither is a prefix of the other |
| FactPaths.LeavesRebuild | command.go:126-150 | rebuilding from the leaves gives the value with empty maps and arrays pruned |
| Commands.ApplyRows | command.go:61-409 | an accepted command changes the entities it fills and the nodes as specified, entity by entity |
| Commands.ApplyKeepsOthers | command.go:61-409 | every other entity keeps its rows |
| History.RejectedLeaveNoTrace | command.go:36-47 | rejected commands change nothing in any run |
| History.ActsOnOwnRows | command.go:379-409 | a command changes its certname's rows as if they were alone and keeps all others in order |
| History.StoreRefinesHistory | command.go:36-409 | after any run each certname's rows are those of its last facts and catalog commands, all its reports, and one merged node row |
| Provenance.AcceptsExactly | command.go:36-72 | a command is accepted exactly with one of three names, its version, a payload and a certname |
| Provenance.ActsIffConcerns | command.go:36-72 | any other changes nothing, and these leave a node row for their certname |
| Provenance.ReportsShow | command.go:309-341 | after any run the reports rows are, one for one, the store report commands, column by column |
| Provenance.EventsShow | command.go:343-366 | the events rows are the events of the payloads in order, each with its own columns and its report's hash, certname and environment |
| Provenance.EventsNameReports | command.go:309-366 | so each names, by hash, a reports row of its certname and environment |
| Provenance.CatalogShows | command.go:202-259 | the catalogs, resources and edges rows are those of the last replace catalog command |
| Provenance.FactsShow | command.go:61-160 | the facts, fact_contents and inventory rows are those of the last replace facts command, each leaf under the last name of its path |
| Provenance.NodeShows | command.go:395-409 | the node row has, column by column, what the last command of each kind says, and no other columns |
| Interleavings.CommandsCommute | command.go:379-409 | in any store, commands for different certnames commute up to row order and keep each certname's row sequence |
| Interleavings.InterleavingDoesNotMatter | command.go:36-47 | runs with the same commands for each certname end in the same rows |
| Interleavings.RowsHaveOwners | command.go:61-409 | every row belongs to a certname of an accepted command and stands in one of nine entities |
| Interleavings.ReplaceIsIdempotent | command.go:61-259 | a replace command sent twice does what it does once |
| Consistency.FactEntitiesAgree | command.go:73-107 | after any run, facts rows are the entries and fact_contents rows the leaves of the inventory row's facts |
| Consistency.NodeRepeatsTheOthers | command.go:109-112 | after any run, the node row repeats the inventory row, the catalog and the last report |
| Stores.Compact | command.go:379-392 | compaction in place over the array it reads is the order-preserving filter |
| Stores.Store.Add | store.go:32-34 | a new row goes last in its entity; node rows stay in place |
| Stores.Store.ReplaceFor | command.go:379-392 | the certname's rows are removed, the entity deleted when none is left |
| Stores.Store.UpsertNode | command.go:395-409 | the first node row of the certname is written in place, or a new one added |
| Stores.Store.ExpandFacts | command.go:61-114 | replacing, adding and upserting row objects step by step leaves the rows that the value-level steps give |
| Stores.Store.ExpandCatalog | command.go:202-259 | the same for a catalog command |
| Stores.Store.ExpandReport | command.go:309-376 | the same for a report, whose events come from nested loops |
| Stores.Store.Ingest | command.go:36-47 | the new rows are those of the specification, errors leave the store as it was, and no row object but node rows is written |
| Responses.EvalRefs | store.go:49-73 | evaluation on row objects; a row it hands out is a node row only for unprojected non-aggregating node queries |
| Responses.IngestAll | command.go:36-47 | any later commands leave every row object outside the node rows as it is |
| Responses.AnswerLater | server.go:160-168 | the answer, its rows encoded one after another while later commands run, is the evaluation at the moment of the read |
| Exposure.ExposedLater | server.go:160-168 | an answer of node rows shows the places selected at the read, each with the columns of the moment at which that row is encoded |
| Exposure.SomeCommandChanges | server.go:160-168 | in every state of the store, for any places of node rows there is a command that changes what they show |
| Exposure.ChangeAnswer | server.go:160-168 | for every query that hands out a node row some command makes the answer differ from the evaluation at the read |
| Exposure.NodesAreNamed | command.go:395-409 | after any run each node has one row, which bears its certname |
| Exposure.TornAnswer | server.go:160-168 | a run of three commands whose answer is not what the store held at any of the three moments |
| Snapshots.ApplyAlike | persist.go:13-30 | a command does the same to a store and to its reloaded snapshot |
| Snapshots.RereadDbTwice | persist.go:13-30 | a second save and load loses nothing more |
| SnapshotFiles.LoadingIsDecoding | persist.go:13-30 | loading a snapshot gives what decoding its JSON gives, and succeeds exactly when that is no deeper than the decoder goes |
| Recovery.EveryRunKeeps | server.go:196-209 | in every reachable state the file is a whole snapshot of the saved commands and the memory holds all surviving ones |
| Recovery.CrashRecovery | persist.go:36-80 | after a crash at any step the file opens exactly when the saved rows can be decoded, and the reopened store is then what the saved commands make of an empty one, every answered command among them |
| Recovery.OpensIff | persist.go:36-52 | in every state, opening succeeds exactly when the rows of the saved commands can be decoded |
| Reopening.LoadsIff | persist.go:24-30 | a saved store can be loaded exactly when the rows of each command that stands are shallow enough |
| Reopening.OpensIffRowsFit | persist.go:36-52 | after any run the file opens exactly when the saved commands that stand brought such rows |
| Reopening.FactsFitIff | command.go:61-114 | the rows of a facts command are shallow enough exactly when its values are nested three levels less than the decoder goes, although arrays of paths grow as values shrink |
| Reopening.DeepFact | command.go:61-72 | one fact that the command decoder takes and the snapshot decoder does not |
| Reopening.DeepFactsAreLost | server.go:196-209 | such a command is accepted, saved and answered with success, and after a crash the server does not start |
| Recovery.FirstCrashKeepsPrefix | persist.go:36-80 | the first crash, if the file opens, takes the store back to a prefix of the accepted commands with every answered one in it |
| Recovery.EveryCrashKeepsPrefix | persist.go:36-80 | between any two restarts of a file that opens, the store reopened second is the one reopened first plus a prefix of the commands accepted in between, with every answered one in it |
| Recovery.AnsweredStays | server.go:196-209 | a command answered with success is never taken back by later failures or crashes |
| Recovery.HandledIsSaved | persist.go:63-80 | a command whose save goes through is saved and answered |
| Reloaded.CloseEval | store.go:49-73 | on stores that differ only in small integers inside arrays, a query fails on both or gives rows that differ only there |
| StoreRows.RowsAreExpected | command.go:36-409 | the rows of an entity are exactly those that the histories of its certnames say |
| StoreRows.AllRowsIff | command.go:36-409 | a property of rows holds of a whole store exactly when it holds of the rows that the commands that stand brought |
| Payloads.PayloadBrings | command.go:61-376 | a decoded command brings rows without nil maps exactly when its facts have values or all its resources parameters |
| Payloads.StoreFromJson | command.go:36-409 | after any run of decoded commands the store has no nil map exactly when the commands that stand carry theirs |
| ReopenedQueries.MissingValuesShow | command.go:102-108 | after `{"certname": c}` as a facts command, the null test of the facts finds nothing before a restart and the row after it |
| ReopenedQueries.MissingMapShows | store.go:274-281 | wherever a store has a nil map, a null test finds fewer rows on it than on the store reloaded |
| ReopenedQueries.AnswersAlikeIff | persist.go:13-30 | every query is answered alike on two stores with one snapshot, of which one was loaded, exactly when the other has no nil map |
| ReopenedQueries.SnapshotAnswersIff | persist.go:13-30 | every query on the reloaded snapshot is answered as on the store exactly when the store has no nil map |
| ReopenedQueries.ReopenedAnswersIff | persist.go:36-80 | after any run and crash, if the file opens, every query fails on both or is answered with the same rows as on what the saved commands make of an empty store, but for how integers inside arrays are represented, exactly when the saved commands that stand carry their values and parameters |

## Left out

- HTTP routing, headers, status codes and the client (server.go:37-157, client.go): network plumbing.
- JSON text: documents are trees; the keys of objects are taken as they are, and key escaping is not modelled. Of the nil maps and slices only the two maps that rows show, facts and parameters, are told from empty ones.
- Error texts and token offsets: a parse error is one value; an evaluation error is a fault of `Faults`, without its wording.
- Regular expressions and the rendering of floats and nested values in group keys: parameters of the evaluation.
- Nested arrays and maps as group keys: their rendering may collide, so key injectivity is stated for scalars only.
- Request bodies: a query or command arrives inside a request that adds a level or two of nesting of its own; depths are those of the query document and of a command's payload.
- PrinterProofs.PqlExpresses: a number literal keeps its exact decimal value, where ParseFloat rounds it to a float64.
- NumberTexts.DenotableIsSpelled: the same; the values a text denotes are decimal fractions, before rounding.
- NumberTexts.IntegersAreDenotable: the same; integers above 2^53 are rounded by ParseFloat.
- Float arithmetic: sums and averages are exact reals with the IEEE infinities and NaN, and a number literal has its exact decimal value; only integer conversions round, and there is no negative zero.
- AstNormalForm.RoundTrip: a decoded integer of 2^63 or more is taken as an error, although Go leaves its conversion to the platform; negative limits built by hand are not representable.
- Aggregate.AggSumLoop: the sum is exact, where Go rounds after every addition.
- Aggregate.AggAvgLoop: the sum and the division are exact, where Go rounds.
- Sorting.SortInPlace: sort.SliceStable belongs to the Go library and is modelled by insertion sort, which it runs on up to twenty rows; on ordered columns the result is the same, on others it is not fixed.
- Evaluator.OrderRowsInPlace: on columns that compareAny does not order, insertion sort stands for the library's sort.
- Evaluator.EvalLoop: the same, through its call of the sort.
- Commands.ApplyRows: columns of catalog, resource, edge, report and event rows that no invariant needs are carried as an opaque remainder, and the three payload decodings and the hashes are given with the command.
- Stores.Store.Add: the backing arrays that Go's append may share between slices are not modelled; entity lists are values, and compaction runs on an array of its own.
- Stores.Store.ReplaceFor: compaction runs on an array of its own, so a slice that shares the entity's backing array is not modelled.
- ReopenedQueries.ReopenedAnswersIff: payload arrays have at most a million items and the rendering of group keys shows an integer below a million inside an array like the same float64, as Go's does; from there on Go renders the float64 in scientific notation.
- Recovery.CrashRecovery: only stores bound to a path; rename is atomic, and a write that was reported done survives the end of the process (SaveTo does not flush to the medium).
- Implicit subqueries and to_string in evaluation: errors by design, kept as error cases.
