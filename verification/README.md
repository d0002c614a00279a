# CodeAI: verified models

CodeAI turns declarations of entities, integrations, roles and workflows into a running service.
This project models the parts of it that carry state, branching or meaning, in Dafny, and proves
what they promise. Nothing is executed; the proofs are about the models, and each row of the table
below names the source lines a member models.

| area | modules |
|---|---|
| query language: lexer, parser, SQL compiler | `QueryAst`, `QueryTokens`, `Lexer`, `LexerRoundTrip`, `QueryParser`, `Grammar`, `QueryGrammar`, `ParserRoundTrip`, `QueryRoundTrip`, `Keywords`, `FilterRoundTrip`, `OptionalSyntax`, `QueryText`, `AcceptedQueries`, `FilterNegation`, `Precedence`, `SqlCompiler`, `SqlText`, `Placeholders` |
| what the emitted SQL means | `Columns`, `Truth`, `SqlReader`, `SqlStatements`, `QueryMeaning`, `MeaningPreserved`, `KeptFlags`, `Unreadable`, `StatementMeaning`, `StatementExactness`, `SoftDelete` |
| in-memory LRU cache | `MemoryCache`, `CacheRuns` |
| circuit breaker | `CircuitBreaker`, `BreakerRuns`, `BreakerHistory` |
| roles and permissions | `Permissions`, `RoleGraph`, `RbacPolicy`, `RbacEngine` |
| pagination | `Pagination`, `OrderedRows`, `KeysetWalk`, `WalkExactness` |
| scope checker | `ScopeSyntax`, `SymbolTable`, `Validator`, `ScopeJudgement` |
| migrations, shutdown, path converters | `Migrations`, `HookGroups`, `ShutdownRuns`, `PathConverters` |
| shared | `Results`, `Strings`, `Decimal` |

Code that changes state step by step is a class whose methods are proved against specification
functions; the properties are lemmas about those functions, over every input, every run or every
interleaving. What a query, a permission, a history of requests or a program means is defined apart
from the code it is compared with: the SQL reader, the columns of fields, the grammar of tokens and
keywords, the timed map, the notes of an onlooker, the parts of permissions, reachability, and the
judgements on names and types.
Search conditions are read with the precedence of SQL-92 (ISO/IEC 9075:1992), section 8.12,
and three-valued truth.

## Where the code falls short of what it suggests

Each of these is a lemma, with the exact condition where there is one.

- NOT over an empty group compiles to text that is no search condition (`Unreadable.ReadsBackExactly`);
  NOT on a text search and NOT on `NOT IN ()` are lost (`MeaningPreserved.UnfaithfulLeafDiffers`).
  The parser builds none of these (`AcceptedQueries.AcceptedIsGood`).
- The parser of simple filters itself loses a NOT: it is kept exactly when a group follows or an
  operator follows the name (`FilterNegation.NotKeptExactly`), so `not archived` selects the rows that
  `archived` selects (`FilterNegation.NotNameSelectsIt`). An AND or OR between simple filters is read
  as a flag of that name (`FilterNegation.NameIsAFlag`).
- Without parentheses a mixture of AND and OR becomes one OR of everything (`ParserRoundTrip.MixedParses`).
  That agrees with the precedence of AND exactly when there is no mixture
  (`Precedence.PrecedenceMatters`, with the row on which they differ in `Precedence.MixtureDiffers`).
- An update that sets nothing compiles to text that is no statement (`StatementExactness.UpdateBroken`).
- Where a Set has to evict, an expired entry that no cleanup has removed can cost a live one its place
  (`CacheRuns.CleanupSpares`); otherwise cleaning up is invisible (`CacheRuns.CleanupInvisible`).
- At the instant an entry expires, and only then, Exists denies what Get still returns
  (`CacheRuns.GetAndExists`).
- A success admitted long before can close a half-open breaker whose test request is unanswered
  (`BreakerRuns.StaleSuccessCloses`): it cannot exactly when maxConcurrent is one or there is at most
  one client (`BreakerRuns.ProbeAnswersExactly`).
- `maxConcurrent` bounds the calls in flight exactly when there are no more clients than that
  (`BreakerRuns.LimitHoldsExactly`).
- A warm permission cache can deny what the roles grant (`RbacEngine.WarmAnswerCanDeny`); it is exact
  if and only if every cached list is complete (`RbacEngine.WarmExactExactly`). On acyclic storage no
  history of requests makes it deny exactly when every role that inherits a matching permission lists
  a matching one itself (`RbacEngine.WarmExactStorage`).
- Under an OR filter that passes more rows than a page holds, the cursor of the first page leads back
  to the first page (`WalkExactness.OrRootedRestarts`). Walks end exactly under a filter that is
  absent, an AND or empty, or when the result fits one page (`WalkExactness.WalkExistsExactly`).
  For filters of comparisons on other columns that can be told before paging
  (`WalkExactness.ComparisonsWalkExactly`); an OR that no row passes is harmless
  (`WalkExactness.EmptyOrAlwaysWalks`).
- When columns are selected without the order field's, or the order field is stored under another
  name, cursors hold no key and a walk shows its first page alone: it is whole exactly when all columns
  or the order field's are selected or the result fits one page (`WalkExactness.WalkWholeExactly`,
  `WalkExactness.HiddenNameStops`).
- A backward cursor leads to the first page of what comes before it, which is the previous page exactly
  when no more than a page comes before it (`WalkExactness.PreviousPageExactly`).
- A shutdown hook whose own timeout or whose context passes before its function is called may start only
  after shutdown is over, or never, although its group counts as waited for
  (`ShutdownRuns.NothingStarted`); called before that, it has started once
  (`ShutdownRuns.ExactlyOnce`).
- The two path converters differ on a segment with text before its colon (`PathConverters.AgreeExactly`).

## Model

| member | source | states |
|---|---|---|
| `SqlCompiler.MapColumn` | internal/query/compiler.go:540-548 | the column of a field is the one the entity lists, or else its words in small letters joined by underscores, cut before every capital but the first character |
| `SqlCompiler.SQLCompiler.Compile` | internal/query/compiler.go:30-57 | compiling starts from no parameters and leaves the text, the parameter list and the counter of one compilation; an unknown entity is an error |
| `SqlCompiler.SQLCompiler.EmitSelect` | internal/query/compiler.go:60-139 | the SELECT text in clause order, its WHERE and HAVING parameters appended to the list in that order |
| `SqlCompiler.SQLCompiler.EmitFiltered` | internal/query/compiler.go:142-197 | COUNT and aggregates: the head, then the filtered WHERE and its parameters |
| `SqlCompiler.SQLCompiler.EmitUpdate` | internal/query/compiler.go:200-249 | SET parameters first, then those of WHERE continue their numbering; errors come from WHERE alone, so an update that sets nothing compiles |
| `SqlCompiler.SQLCompiler.EmitWhereWithSoftDelete` | internal/query/compiler.go:285-310 | a soft-deleting entity's filter is its clause in parentheses AND the column IS NULL |
| `SqlCompiler.SQLCompiler.EmitWhere` | internal/query/compiler.go:313-342 | the conditions joined by the clause's operator, several of them in parentheses |
| `SqlCompiler.SQLCompiler.EmitLeaf` | internal/query/compiler.go:359-493 | every comparison, with its parameters bound one by one; unusable operands are errors |
| `SqlCompiler.SQLCompiler.EmitTextSearch` | internal/query/compiler.go:496-522 | a search on an entity with search columns; without any it is an error |
| `SqlCompiler.SQLCompiler.EmitCondition` | internal/query/compiler.go:345-357 | a nested clause in parentheses, negated as a whole |
| `SqlCompiler.SQLCompiler.EmitInList` | internal/query/compiler.go:424-458 | one placeholder for each item; an empty list is a constant; a value that is not a list is an error |
| `Columns.SnakeIsSmall` | internal/query/compiler.go:563-577 | such a column has no capital letters |
| `Columns.CamelReads` | internal/query/compiler.go:563-577 | reading every underscore before a small letter as its capital gives a lower-first field without underscores back |
| `Columns.SnakeIsInjective` | internal/query/compiler.go:563-577 | so different fields of this kind have different columns |
| `MeaningPreserved.ClauseMeaning` | internal/query/compiler.go:313-493 | the text of a clause, read with SQL precedence and its parameters substituted, is one search condition and nothing more, and on every row has the clause's own three-valued truth |
| `MeaningPreserved.FilterMeaning` | internal/query/compiler.go:285-342 | the same with the soft-delete test: only an empty clause of an entity without one compiles to no text |
| `MeaningPreserved.UnfaithfulLeafDiffers` | internal/query/compiler.go:424-522 | NOT on a text search, and NOT on NOT IN of an empty list, are lost: some database and row tell text and condition apart |
| `KeptFlags.SameText` | internal/query/compiler.go:424-522 | a clause compiles exactly as the clause without the Not flags of text searches and of NOT IN of empty lists |
| `KeptFlags.KeptMeaning` | internal/query/compiler.go:60-522 | so every readable query, whatever flags it loses, chooses the rows on which its WHERE without them is true, and its HAVING likewise |
| `Unreadable.ReadsBackExactly` | internal/query/compiler.go:345-357 | the text of a non-empty clause is a search condition exactly when no negated group in it is empty |
| `StatementMeaning.StatementReads` | internal/query/compiler.go:60-282 | each statement's text reads back as the statement: columns, filter, grouping, HAVING, ordering, bounds, assignments |
| `StatementExactness.StatementReadsExactly` | internal/query/compiler.go:60-282 | a compiled query reads back as its statement if and only if it is readable, and otherwise is no statement at all |
| `StatementExactness.UpdateBroken` | internal/query/compiler.go:200-249 | an update that sets nothing, or whose WHERE is no search condition, compiles to text that is no statement |
| `Placeholders.ClauseInStep` | internal/query/compiler.go:313-493 | a clause compiled after n parameters uses exactly the placeholders after n, one for each parameter it appends |
| `Placeholders.UpdateInStep` | internal/query/compiler.go:200-249 | placeholders of SET and WHERE together stay in step with the parameters |
| `Placeholders.PlaceholdersInStep` | internal/query/compiler.go:30-57 | for every query that compiles the placeholders are $1 to $n in order, each once, and the i-th parameter is the query's i-th value across SET, WHERE and HAVING |
| `SqlText.QuoteIdentifier` | internal/query/compiler.go:551-561 | the split on dots, the quoting of every part and the join |
| `SqlText.NameReads` | internal/query/compiler.go:551-561 | a quoted name, whatever characters it holds, reads as a delimited identifier chain of exactly its dotted parts |
| `SqlText.QuotingIsInjective` | internal/query/compiler.go:551-561 | different names are quoted differently |
| `SqlText.TextIsWritten` | internal/query/compiler.go:60-522 | every token is written as SQL writes it: names between quotes part by part, placeholders as dollar and number, words and symbols as the language has them |
| `SqlText.PlaceholdersInText` | internal/query/compiler.go:30-57 | scanning the characters outside quoted identifiers finds $1 to $n in order for n parameters |
| `SoftDelete.StepCommutes` | internal/query/compiler.go:200-310 | one compiled query, executed from its text, changes the rows not soft-deleted as a really deleting entity's query would |
| `SoftDelete.AnswerCommutes` | internal/query/compiler.go:60-197 | a reading query is computed over the same rows by the same statement as in the hard-delete table |
| `SoftDelete.RunCommutes` | internal/query/compiler.go:200-310 | over any run of queries that leave the column alone, the view of live rows is the hard-delete table |
| `SoftDelete.DeadRowsKept` | internal/query/compiler.go:200-310 | no run removes a row or changes one already soft-deleted, whatever the queries assign |
| `QueryParser.Parser.Value` | internal/query/parser.go:623-672 | a value from the current token; a bare identifier takes the comma list after it |
| `QueryParser.Parser.OneCondition` | internal/query/parser.go:509-620 | NOT, groups, tests and their operands, with the depth raised inside a group and lowered after it |
| `QueryParser.Parser.WhereExpr` | internal/query/parser.go:470-506 | conditions and connectives until neither AND nor OR follows; one OR makes the whole clause an OR |
| `QueryParser.Parser.UpdateSets` | internal/query/parser.go:767-805 | assignments separated by commas |
| `QueryParser.Parser.Clauses` | internal/query/parser.go:389-467 | clauses in any order until the end of the tokens, later ones replacing earlier ones |
| `QueryParser.Parser.Select` | internal/query/parser.go:111-146 | a field list only when a comma or FROM follows the first name |
| `QueryParser.Parser.Filters` | internal/query/parser.go:245-267 | simple filters until the end, all of them required |
| `QueryParser.Parser.Parse` | internal/query/parser.go:82-108 | dispatch on the first token; terminates on every token list |
| `QueryParser.Parser.Items` | internal/query/parser.go:675-703 | list items up to the closing bracket |
| `QueryParser.Parser.Test` | internal/query/parser.go:540-620 | IS, BETWEEN and the comparison operators after a field |
| `QueryParser.Parser.Group` | internal/query/parser.go:520-538 | a parenthesised clause, one level deeper, refused beyond the limit |
| `QueryParser.Parser.IdentList` | internal/query/parser.go:706-727 | names, keywords included, separated by commas |
| `QueryParser.Parser.OrderList` | internal/query/parser.go:730-764 | fields with an optional direction, ascending by default |
| `QueryParser.Parser.Aggregate` | internal/query/parser.go:149-185 | COUNT and the aggregates, with an optional field in parentheses |
| `QueryParser.Parser.Update` | internal/query/parser.go:188-217 | UPDATE with its SET list and clauses |
| `QueryParser.Parser.Delete` | internal/query/parser.go:220-242 | DELETE with its clauses |
| `QueryParser.Parser.SimpleFilter` | internal/query/parser.go:270-386 | one simple filter: a search term, a group, a flag or a field with an operator |
| `FilterRoundTrip.FilterReads` | internal/query/parser.go:270-386 | one simple filter written as tokens is read as its condition, with the comparison that its sign stands for, or rejected for its nesting |
| `FilterRoundTrip.FiltersRead` | internal/query/parser.go:245-386 | a list of simple filters that does not begin like a statement is the query that requires exactly these conditions in their order |
| `FilterRoundTrip.DeepFilterRejected` | internal/query/parser.go:289-297 | a group nested more than ten deep is rejected, whatever follows |
| `FilterRoundTrip.FilterTextParses` | internal/query/parser.go:58-108 | the text of simple filters, written and laid out in any way, parses back to that query |
| `Grammar.ValueSound` | internal/query/parser.go:623-703 | whatever is read as a value is one written value, and nothing but its tokens is taken |
| `Grammar.ClauseSound` | internal/query/parser.go:470-620 | whatever is read as a condition clause is written conditions and connectives that make that clause, nested ten deep at most |
| `QueryGrammar.PartsSound` | internal/query/parser.go:389-467 | clauses are read up to the end of the tokens, and each sets its part of the query |
| `QueryGrammar.FilterSound` | internal/query/parser.go:270-386 | whatever is read as a simple filter is one written filter with that condition |
| `QueryGrammar.AcceptedIsWritten` | internal/query/parser.go:82-804 | whatever the parser accepts is a query written by the grammar, with nothing left over before the end |
| `OptionalSyntax.FromIsOptional` | internal/query/parser.go:149-242 | DELETE, COUNT and the aggregates parse the same without FROM |
| `OptionalSyntax.SelectFromIsOptional` | internal/query/parser.go:111-146 | so does a SELECT of all columns |
| `OptionalSyntax.ByIsOptional` | internal/query/parser.go:389-467 | ORDER and GROUP parse the same without BY |
| `OptionalSyntax.IncludeIsWith` | internal/query/parser.go:389-467 | INCLUDE parses as WITH |
| `OptionalSyntax.AscendingIsDefault` | internal/query/parser.go:730-764 | a field to order by without a direction is ascending |
| `OptionalSyntax.TrailingComma` | internal/query/parser.go:706-727 | a comma after the last name of a list is passed over |
| `OptionalSyntax.TrailingWordComma` | internal/query/parser.go:640-672 | so is a comma after the last bare word of a value, which stays a list |
| `OptionalSyntax.LaterReplaces` | internal/query/parser.go:389-467 | a clause written again replaces what the query had and changes nothing else |
| `ParserRoundTrip.ValueParses` | internal/query/parser.go:623-703 | a value written as tokens parses back to itself and leaves the rest |
| `ParserRoundTrip.ClauseParses` | internal/query/parser.go:470-620 | a clause written as tokens parses back to itself, or is rejected for its nesting beyond the limit |
| `ParserRoundTrip.MixedParses` | internal/query/parser.go:481-503 | conditions joined by any mixture of AND and OR come back in order as one clause, an OR as soon as one connective is OR |
| `Precedence.MixtureDiffers` | internal/query/parser.go:481-503 | for every mixture of connectives, in every database, there are conditions and a row on which the parsed clause is true and the OR of AND runs that precedence makes is false |
| `Precedence.PrecedenceMatters` | internal/query/parser.go:481-503 | the parsed clause has the truth of the OR of AND runs for all conditions, databases and rows if and only if one connective joins them all |
| `Precedence.MixedMeaning` | internal/query/parser.go:481-503 | the tokens of such a clause parse to it, and with one connective the readings agree |
| `QueryRoundTrip.QueryParses` | internal/query/parser.go:82-242 | every query the language can spell parses back to exactly itself when its groups nest at most ten deep, and is rejected for its nesting otherwise |
| `AcceptedQueries.AcceptedIsGood` | internal/query/parser.go:82-620 | an accepted query never holds an empty group, a Not flag that the compiler loses in WHERE or HAVING, or more than ten nested groups |
| `AcceptedQueries.FilterChooses` | internal/query/compiler.go:285-310 | the WHERE of a statement chooses exactly the rows on which the clause with the soft-delete test is true |
| `AcceptedQueries.AcceptedQueryMeaning` | internal/query/executor.go:30-43 | an accepted query that compiles is one statement at the database, whose WHERE chooses the rows on which the parsed clause is true and whose HAVING has the truth of the parsed one |
| `AcceptedQueries.HavingOfStatement` | internal/query/compiler.go:105-112 | the HAVING of a readable query has on every row the truth of the query's clause, its parameters placed after those of WHERE |
| `FilterNegation.NotKeptExactly` | internal/query/parser.go:270-367 | an accepted filter that starts with NOT is negated, in its flag and in its meaning, if and only if a group follows or an operator follows the name |
| `FilterNegation.LostNotChangesNothing` | internal/query/parser.go:356-362 | otherwise the filter is the one without NOT |
| `FilterNegation.NotNameSelectsIt` | internal/query/parser.go:356-362 | `not name` is the query `name`: it selects the rows whose flag is true |
| `FilterNegation.NameIsAFlag` | internal/query/parser.go:356-362 | a name without an operator is a flag that must be true, and so is an AND or OR between simple filters |
| `Lexer.Scanner.SkipWhitespace` | internal/query/tokens.go:325-338 | spaces, tabs, carriage returns and newlines are passed over, and nothing else |
| `Lexer.Scanner.ReadQuotedText` | internal/query/tokens.go:349-393 | content with escapes resolved up to the closing quote, or the whole input when there is none |
| `Lexer.Scanner.ReadNumberToken` | internal/query/tokens.go:396-439 | sign, digits, a fraction only before a digit, an exponent |
| `Lexer.Scanner.ReadIdentifierToken` | internal/query/tokens.go:442-462 | the longest run of identifier characters, a keyword in any case or an identifier |
| `Lexer.Scanner.ReadNext` | internal/query/tokens.go:234-322 | one token from the current position, after whitespace |
| `Lexer.Scanner.Tokenize` | internal/query/tokens.go:219-231 | all tokens up to the end of the input or the first error; terminates on every input |
| `LexerRoundTrip.TokensCover` | internal/query/tokens.go:219-338 | nothing of a text is lost between its tokens but whitespace: their spans follow each other, are not empty, spell the tokens, and reach the end when there is no error |
| `LexerRoundTrip.QuotedReads` | internal/query/tokens.go:349-393 | between either kind of quotes, every character stands for itself or for what its escape denotes, newline, tab and return included, and any bytes are read back |
| `LexerRoundTrip.NumeralReads` | internal/query/tokens.go:396-439 | a sign, digits, a fraction with a digit and an exponent are read as one number, up to what could not go on it |
| `LexerRoundTrip.LayoutLexes` | internal/query/tokens.go:219-322 | tokens written in any of their spellings, with whitespace where one would run into the next, are read back |
| `LexerRoundTrip.LexedExactly` | internal/query/tokens.go:219-482 | a list of tokens is what some text is read as if and only if each token can be spelled |
| `Keywords.MeansExactly` | internal/query/tokens.go:158-194 | a word is a keyword exactly if it spells one of the listed words in any case of letters, and then that keyword; any other word is a name |
| `QueryText.KeywordLexable` | internal/query/tokens.go:158-194 | every keyword, operator and punctuation mark is read as itself |
| `QueryText.Parse` | internal/query/parser.go:58-67 | lexing then parsing, with the first lexical error returned before anything is parsed |
| `QueryText.QueryTextParses` | internal/query/parser.go:58-108 | the text of a query, its tokens written and laid out in any way, parses back to the query, or is rejected for nesting more than ten deep |
| `QueryText.TextMeaning` | internal/query/executor.go:46-52 | from text to rows: an accepted text that compiles is one statement, whose WHERE chooses the rows on which the parsed clause is true and whose HAVING has the truth of the parsed one |
| `MemoryCache.Cache.Get` | internal/cache/memory.go:124-149 | a hit moves its entry to the front; an expired entry is removed and missed |
| `MemoryCache.Cache.Set` | internal/cache/memory.go:152-189 | the old entry goes, the tail is evicted until the value fits, the new entry is in front |
| `MemoryCache.Cache.Evict` | internal/cache/memory.go:101-121 | from the back until both limits leave room, or nothing is left |
| `MemoryCache.Cache.Delete` | internal/cache/memory.go:192-198 | the entry leaves map, list and byte count together |
| `MemoryCache.Cache.Exists` | internal/cache/memory.go:201-212 | present and not yet past its expiry, without touching the order |
| `MemoryCache.Cache.Cleanup` | internal/cache/memory.go:67-90 | exactly the expired entries go |
| `MemoryCache.Cache.DeletePattern` | internal/cache/memory.go:281-301 | exactly the matching keys go |
| `MemoryCache.Cache.Bump` | internal/cache/memory.go:330-410 | Incr and Decr: the counter read, wrapped to 64 bits, printed back in front without eviction |
| `MemoryCache.Bijection` | internal/cache/memory.go:17-33 | map and list stay in bijection with distinct keys |
| `MemoryCache.TrimIsLongest` | internal/cache/memory.go:101-121 | the survivors of an eviction are the longest most recently used prefix that leaves room |
| `MemoryCache.SetIsLongest` | internal/cache/memory.go:152-189 | after Set, behind the new entry stands the longest part of the other entries, most recently used first, that leaves room under both limits: the old entry of the key takes no room |
| `MemoryCache.Wrap` | internal/cache/memory.go:330-410 | the counter wraps to the one 64-bit number that differs by a multiple of 2 to the 64 |
| `MemoryCache.Cache.Clear` | internal/cache/memory.go:448-455 | nothing is left, and the byte count is zero |
| `CacheRuns.RunsAreSound` | internal/cache/memory.go:124-189 | in every run, under any limits and any clock, a hit returns the bytes last written to that key and not expired |
| `CacheRuns.RunsAreExact` | internal/cache/memory.go:124-212 | with both limits off and time not going back, every reply of every run is a plain timed map's |
| `CacheRuns.CleanupInvisible` | internal/cache/memory.go:67-84 | cleaning up changes no reply of any later run in which no Set has to evict: any run when both limits are off, any run without Set under limits |
| `CacheRuns.CleanupSpares` | internal/cache/memory.go:67-121 | where a Set has to evict, cleaning up first can spare an entry that a later Get then finds |
| `CacheRuns.GetAndExists` | internal/cache/memory.go:124-212 | Get and Exists disagree exactly at an entry's expiry instant |
| `CacheRuns.FittingSetEvictsNothing` | internal/cache/memory.go:152-189 | after any run, a Set whose value fits beside the other entries evicts none of them |
| `CacheRuns.DecodesExactly` | internal/cache/memory.go:330-369 | a value is a counter exactly if it is a 64-bit numeral, minus zero or null with nothing but whitespace around it |
| `CacheRuns.SetBounds` | internal/cache/memory.go:152-189 | after Set the item limit holds, and the memory limit unless the new value alone exceeds it and is then the only entry |
| `CacheRuns.RunsKeepRecency` | internal/cache/memory.go:124-189 | in every run the list is in order of last hit or write |
| `CacheRuns.DecodePrinted` | internal/cache/memory.go:330-369 | a printed counter is read back |
| `CacheRuns.BumpAgain` | internal/cache/memory.go:330-410 | a counter bumped again before it expires goes on from the value it returned, wrapped to 64 bits |
| `CircuitBreaker.CircuitBreaker.Allow` | internal/integration/dsl_loader.go:260-290 | admission by state, time since the last failure, and the two limits |
| `CircuitBreaker.CircuitBreaker.Done` | internal/integration/dsl_loader.go:293-299 | one fewer in flight, never below zero |
| `CircuitBreaker.CircuitBreaker.RecordFailure` | internal/integration/dsl_loader.go:302-312 | the failure is counted and dated; at the threshold the breaker opens |
| `CircuitBreaker.CircuitBreaker.RecordSuccess` | internal/integration/dsl_loader.go:315-324 | only a half-open breaker closes and forgets its failures |
| `CircuitBreaker.Do` | internal/integration/dsl_loader.go:190-229 | a call that is refused changes nothing; any other is admitted, recorded and done, in this order |
| `BreakerRuns.ReachableInv` | internal/integration/dsl_loader.go:190-324 | over every interleaving of any number of clients: the count is the number of calls between Allow and Done, the breaker is closed exactly below the threshold, and a half-open episode has admitted one request, in flight and unrecorded |
| `BreakerRuns.ThresholdNeeded` | internal/integration/dsl_loader.go:160-172 | the invariant holds at the start if and only if the threshold is at least one |
| `BreakerRuns.EpisodeEndsWithRecord` | internal/integration/dsl_loader.go:260-324 | during a half-open episode nobody is admitted, and the first record by anyone ends it |
| `BreakerRuns.StaleSuccessCloses` | internal/integration/dsl_loader.go:315-324 | for every threshold and timeout, if the limit is not one and there are two clients, a success admitted before the breaker opened closes it while the test request is unanswered |
| `BreakerRuns.ProbeAnswersExactly` | internal/integration/dsl_loader.go:260-324 | in all runs only the test request answers a half-open episode if and only if maxConcurrent is one or there is at most one client |
| `BreakerRuns.ConcurrentReaches` | internal/integration/dsl_loader.go:260-312 | for every threshold, timeout and limit, any number of clients up to all of them can be in flight at once |
| `BreakerRuns.LimitHoldsExactly` | internal/integration/dsl_loader.go:190-324 | all runs keep the calls in flight within maxConcurrent if and only if there are no more clients than that |
| `BreakerHistory.AllowExactly` | internal/integration/dsl_loader.go:260-324 | after every run, whether a request is turned away, and with which error, follows from what was noted of the run: the failures since a test request was answered by a success, the last of them, an unanswered test request, and the requests inside; and a request turned away changes nothing |
| `BreakerHistory.OpenRefusesExactly` | internal/integration/dsl_loader.go:260-290 | while these failures have reached the threshold and no test request is out, a request is turned away exactly until the timeout after the last failure |
| `RoleGraph.VisitIsReachability` | internal/rbac/rbac.go:279-310 | a search with a shared seen set lists exactly the names reachable from its roots |
| `RbacPolicy.Policy.DetectCycle` | internal/rbac/policy.go:166-184 | the search marks a shared set, terminates on every graph, and misses no path to the role |
| `RbacPolicy.Policy.CheckCyclicInheritance` | internal/rbac/policy.go:161-164 | a cycle is reported exactly when the role is reachable from its proposed parents |
| `RbacPolicy.Policy.AddRole` | internal/rbac/policy.go:81-104 | added unless name, permissions or parents are refused, with the first of these errors |
| `RbacPolicy.Policy.UpdateRole` | internal/rbac/policy.go:107-130 | replaced unless refused |
| `RbacPolicy.Policy.RemoveRole` | internal/rbac/policy.go:133-140 | removed if present; roles that inherit from it keep its name |
| `RbacPolicy.SetKeepsAcyclic` | internal/rbac/policy.go:81-130 | setting a role that is not among its own ancestors keeps an acyclic graph acyclic |
| `RbacPolicy.EditsKeepAcyclic` | internal/rbac/policy.go:81-184 | every sequence of edits keeps an acyclic graph acyclic |
| `RbacPolicy.EditsOfEmptyAreAcyclic` | internal/rbac/policy.go:63-184 | after every sequence of edits of an empty policy the whole graph is acyclic, dangling parents included |
| `RbacPolicy.RefusedWouldCycle` | internal/rbac/policy.go:161-184 | an edit refused as cyclic would have made a cycle |
| `RbacPolicy.ValidExactly` | internal/rbac/policy.go:198-215 | a permission may be listed exactly if it is a resource and an action, neither empty, around one colon |
| `RbacPolicy.ValidNameExactly` | internal/rbac/policy.go:187-195 | a role may have any name but the empty one and those with whitespace |
| `RbacEngine.MatchesIsPermits` | internal/rbac/rbac.go:20-52 | matching is what the parts permit: each is the wildcard or the target's |
| `RbacEngine.Engine.ResolveUserPermissions` | internal/rbac/rbac.go:197-240 | the collected list, the seen names and the cache after resolving the roles in order |
| `RbacEngine.Engine.CheckPermission` | internal/rbac/rbac.go:121-153 | direct permissions first, without touching the cache; then those of the roles |
| `RbacEngine.Engine.GetUserRoles` | internal/rbac/rbac.go:279-310 | terminates on any storage; every reachable name once |
| `RbacEngine.Engine.HasInheritedRole` | internal/rbac/rbac.go:178-194 | terminates on acyclic storage; true exactly when the target is a proper ancestor |
| `RbacEngine.Engine.CheckRole` | internal/rbac/rbac.go:156-175 | on acyclic storage true for a name exactly when GetUserRoles lists it |
| `RbacEngine.ColdResolution` | internal/rbac/rbac.go:197-240 | from an empty cache the result is, as a multiset, each reachable role's list exactly once, cyclic graphs included |
| `RbacEngine.ColdAnswerIsExact` | internal/rbac/rbac.go:121-153 | from an empty cache a check is granted exactly when a direct or reachable permission matches |
| `RbacEngine.WarmAnswerIsSound` | internal/rbac/rbac.go:121-240 | after any requests on unchanged storage a warm answer never grants more than the roles allow |
| `RbacEngine.CompleteCacheIsExact` | internal/rbac/rbac.go:210-240 | when every cached list is its role's closure, resolution yields exactly the closure of its roots |
| `RbacEngine.WarmExactExactly` | internal/rbac/rbac.go:210-240 | resolution is exact for all roots if and only if every cached list is its role's closure |
| `RbacEngine.WarmExactStorage` | internal/rbac/rbac.go:121-240 | on acyclic storage answers are exact after every history of requests if and only if every role that inherits a matching permission lists a matching one itself |
| `RbacEngine.WarmAnswerCanDeny` | internal/rbac/rbac.go:210-240 | in an acyclic diamond one check fills the cache so that a granted permission is then denied |
| `RbacEngine.Engine.ResolveRolePermissions` | internal/rbac/rbac.go:210-240 | one role: nothing if seen, its cached list if there is one, else its own and its parents' permissions, which are then cached |
| `RbacEngine.Engine.CollectRoles` | internal/rbac/rbac.go:288-307 | depth-first collection of names not seen before |
| `Permissions.PermitsExactly` | internal/rbac/rbac.go:42-52 | a permission with a colon permits exactly the targets of its resource, or any, and its action, or any |
| `Permissions.PermitsWithoutColon` | internal/rbac/rbac.go:20-52 | a permission without a colon permits the empty action alone |
| `Pagination.Paginator.Execute` | internal/pagination/paginator.go:62-69 | a validated request is served by cursor or by offset |
| `Pagination.Paginator.ExecuteOffset` | internal/pagination/paginator.go:72-113 | one row too many is fetched and cut; the base query is not changed |
| `Pagination.Paginator.ExecuteCursor` | internal/pagination/paginator.go:116-182 | the condition of a forward cursor and that of a backward one are appended to a copy, ordered by id if it has no order; the order is that of the query in both directions; the base query is not changed |
| `KeysetWalk.AnswerIs` | internal/query/executor.go:30-43 | the database answers a SELECT through its compiled text: an error if the filter does not compile, or to no search condition, and otherwise the selected rows in order, between the bounds, as records of the selected columns |
| `KeysetWalk.AppendedSelects` | internal/pagination/paginator.go:214-229 | the appended condition narrows an AND filter and widens an OR filter |
| `KeysetWalk.CursorSelects` | internal/pagination/paginator.go:232-289 | the condition built from the cursor of a record that holds the order field is true exactly of the rows after it, ascending and descending |
| `KeysetWalk.AfterCursor` | internal/pagination/paginator.go:116-229 | narrowed by the cursor of a record, the query selects the rows after it, in order |
| `KeysetWalk.CursorPageFrom` | internal/pagination/paginator.go:116-182 | each page by cursor is the next records of the result, with a cursor to its last record exactly when more follow, and one to its first unless it is the first page |
| `KeysetWalk.OffsetPageAt` | internal/pagination/paginator.go:72-113 | page n by offset is the records from (n - 1) times the limit, whatever columns are selected |
| `KeysetWalk.WalkExists` | internal/pagination/paginator.go:116-182 | under a filter that compiles and is absent, an AND or empty, following next cursors from the first page comes to an end, the default order included |
| `KeysetWalk.WalkEnumerates` | internal/pagination/paginator.go:116-289 | if the records hold the order field, the pages of a walk are together the whole ordered result, each selected row's record once, in as many pages as PageCount says |
| `KeysetWalk.PageCountIsCeiling` | internal/pagination/paginator.go:149-164 | cutting each page at the limit, that is the smallest number of pages that hold the result, and one for an empty result |
| `KeysetWalk.WalkIsOffsetPaging` | internal/pagination/paginator.go:72-182 | page by page a walk shows what offset paging shows of the query in the walk's order |
| `KeysetWalk.NarrowedSelects` | internal/pagination/paginator.go:214-229 | appended to a filter that is absent, an AND or empty, a comparison leaves the rows that pass both |
| `KeysetWalk.TotalIsCount` | internal/pagination/paginator.go:72-113 | the total that offset paging reports is the number of rows that its pages hold together |
| `KeysetWalk.CursorRequest` | internal/pagination/types.go:107-135 | a request with any cursor is served by cursor, with 1 to 100 rows to a page, 20 if less than one is asked for; cursor goes before after |
| `KeysetWalk.OffsetRequest` | internal/pagination/types.go:107-135 | any other request is served by offset, from the first page on |
| `WalkExactness.OrRootedRestarts` | internal/pagination/paginator.go:116-229 | under an OR filter that passes more rows than a page holds, the first page's cursor leads back to the first page and hands out itself again |
| `WalkExactness.WalkExistsExactly` | internal/pagination/paginator.go:116-229 | for a filter that compiles, following cursors comes to an end if and only if the filter is absent, an AND or empty, or the result fits one page, whatever columns are selected |
| `WalkExactness.FirstPageExactly` | internal/pagination/paginator.go:116-157 | the first page is an error, and there is no walk, exactly when the filter does not compile, or to no search condition |
| `WalkExactness.WalkWholeExactly` | internal/pagination/paginator.go:116-182 | whatever the filter, a walk that comes to an end has shown the whole ordered result if and only if all columns or the order field's are selected, or the result fits one page; otherwise the first page alone |
| `WalkExactness.BeforePage` | internal/pagination/paginator.go:141-182 | the page before record i is the first records of the result, at most as far as i |
| `WalkExactness.PreviousPageExactly` | internal/pagination/paginator.go:141-182 | that is the previous page, the records just before record i, if and only if no more than a page comes before it |
| `WalkExactness.AlwaysWalksExactly` | internal/pagination/paginator.go:116-229 | walks end on every table if and only if the filter is absent, an AND or empty, or passes no more than a page of any table |
| `WalkExactness.OrOverflows` | internal/pagination/paginator.go:214-229 | an OR with one comparison on another column goes round on some table, for every page size and whatever its other conditions |
| `WalkExactness.ComparisonsWalkExactly` | internal/pagination/paginator.go:214-229 | a check before paging: for filters of comparisons on other columns walks end on every table if and only if the filter is absent, an AND or empty |
| `WalkExactness.EmptyOrAlwaysWalks` | internal/pagination/paginator.go:214-229 | not every OR goes round: one that no row of any table passes ends at once |
| `WalkExactness.HiddenNameStops` | internal/pagination/paginator.go:232-289 | if the order field is stored under another name, a walk shows the first page alone, whatever columns are selected, so it is whole if and only if the result fits one page |
| `SymbolTable.Table.EnterScope` | internal/validator/symbol_table.go:90-92 | a new empty scope in front of the chain |
| `SymbolTable.Table.ExitScope` | internal/validator/symbol_table.go:95-99 | the chain without its first scope; the global scope is never left |
| `SymbolTable.Table.DeclareWithType` | internal/validator/symbol_table.go:116-140 | refused exactly when the innermost scope has the name; otherwise only that entry is added |
| `SymbolTable.Table.Lookup` | internal/validator/symbol_table.go:144-151 | the symbol of the innermost scope that has the name |
| `SymbolTable.Table.UpdateType` | internal/validator/symbol_table.go:161-165 | only the type of the symbol that lookup finds changes |
| `SymbolTable.Table.LookupLocal` | internal/validator/symbol_table.go:155-158 | whether the innermost scope has the name |
| `Validator.Checker.InferType` | internal/validator/type_checker.go:59-139 | the type of an expression from literals, operators and the types of names |
| `Validator.Checker.ValidateExpression` | internal/validator/validator.go:276-337 | the errors of an expression, in order |
| `Validator.Checker.ValidateVarDecl` | internal/validator/validator.go:123-144 | the value is checked before the name; a name the scope has is an error |
| `Validator.Checker.ValidateAssignment` | internal/validator/validator.go:147-170 | only a visible variable may be assigned; a known type replaces the old one |
| `Validator.Checker.ValidateForLoop` | internal/validator/validator.go:191-214 | the loop variable and the body share a new scope |
| `Validator.Checker.ValidateFunctionDecl` | internal/validator/validator.go:217-250 | the function is declared before its body, which shares a scope with the parameters |
| `Validator.Checker.ValidateBlock` | internal/validator/validator.go:259-266 | the statements in order, in the current scope; the same scope is current afterwards |
| `Validator.Validate` | internal/validator/validator.go:40-65 | the errors of a program of these statements, from the builtins |
| `Validator.Checker.ValidateParams` | internal/validator/validator.go:233-244 | parameters declared in the function's own scope, a repeated one reported |
| `Validator.Checker.ValidateFunctionCall` | internal/validator/validator.go:314-337 | arguments first, then the callee: visible, a function, and called with as many arguments as it has parameters |
| `ScopeJudgement.FindExactly` | internal/validator/symbol_table.go:144-151 | a name means what the innermost scope that has it says |
| `ScopeJudgement.RebindExactly` | internal/validator/symbol_table.go:161-165 | a new type goes to that scope and no other entry changes |
| `ScopeJudgement.InfersExactly` | internal/validator/type_checker.go:59-139 | the inferred type is the one that the form of the expression gives it: tests are booleans, arithmetic makes numbers, plus with a string a string |
| `ScopeJudgement.BlamedExactly` | internal/validator/validator.go:276-337 | the errors of an expression are exactly those that a name or a call in it is to blame for |
| `ScopeJudgement.ErrorsInOrder` | internal/validator/validator.go:276-337 | and they come in the order of the parts, arguments before their call |
| `ScopeJudgement.ScopedStep` | internal/validator/validator.go:259-266 | a list is well-scoped exactly when its first statement is, and the rest with what that statement introduces |
| `ScopeJudgement.WalkExact` | internal/validator/validator.go:75-337 | a statement adds no error if and only if it satisfies the scoping, arity and iterability judgement, and then leaves exactly the scopes the judgement says |
| `ScopeJudgement.WalkFrame` | internal/validator/validator.go:75-250 | every statement, right or wrong, leaves the names of every enclosing scope unchanged and only adds to the innermost |
| `ScopeJudgement.AcceptedExactly` | internal/validator/validator.go:40-65 | a program is accepted if and only if it satisfies the judgement |
| `ScopeJudgement.OwnErrorsFirst` | internal/validator/validator.go:75-250 | a statement adds its own errors first, in order, and no others if it has no block |
| `Migrations.Migrator.RunMigration` | internal/database/migrate.go:221-256 | script, bookkeeping and commit all happen, or nothing does |
| `Migrations.Migrator.MigrateUp` | internal/database/migrate.go:142-164 | pending migrations in order, stopping at the first error: a call that failed, or a script that is missing or fails |
| `Migrations.Migrator.Greatest` | internal/database/migrate.go:181-186 | the greatest applied version, in whatever order they are visited |
| `Migrations.Migrator.MigrateDown` | internal/database/migrate.go:167-198 | the migration of the greatest applied version is rolled back |
| `Migrations.Migrator.MigrateReset` | internal/database/migrate.go:201-218 | down until nothing is applied, then up; terminates whatever fails |
| `Migrations.UpKeeps` | internal/database/migrate.go:142-164 | from an applied prefix, Up extends the prefix, and reaches the end if it succeeds |
| `Migrations.DownKeeps` | internal/database/migrate.go:167-198 | Down takes the last migration off the prefix, schema and bookkeeping both |
| `Migrations.ResetKeeps` | internal/database/migrate.go:201-218 | Reset leaves a prefix, and everything applied if it succeeds |
| `Migrations.UpSucceedsExactly` | internal/database/migrate.go:142-164 | if no call to the database fails, Up succeeds exactly when every pending script exists and they run one after the other |
| `Migrations.DownSucceedsExactly` | internal/database/migrate.go:167-198 | if no call fails, Down succeeds exactly when nothing is applied or the last script down exists and runs |
| `Migrations.ResetSucceeds` | internal/database/migrate.go:201-218 | if no call fails, all scripts run and those down undo theirs, Reset succeeds |
| `Migrations.LessExactly` | internal/database/migrate.go:181-186 | versions are compared at their first difference, a proper prefix first |
| `Migrations.RunsKeep` | internal/database/migrate.go:142-256 | in any run, with failures anywhere, the applied versions are a prefix of the sorted list and the schema is those up scripts in order |
| `HookGroups.GroupByPriority` | internal/shutdown/manager.go:232-253 | the groups accumulated in one pass |
| `HookGroups.GroupsPartition` | internal/shutdown/manager.go:232-253 | the groups are the hooks in their order, cut into pieces of one priority |
| `HookGroups.GroupsDescend` | internal/shutdown/manager.go:152-161 | over sorted hooks the groups have strictly descending priorities |
| `ShutdownRuns.StepKeeps` | internal/shutdown/manager.go:110-197 | every step of every caller and of every goroutine keeps the invariant: one body, and a log that agrees with its loop counters and goroutines |
| `ShutdownRuns.HigherFirst` | internal/shutdown/manager.go:152-226 | when a hook starts, be it late, the wait for every hook of higher priority is over, because that hook has ended or its timeout or the context's has passed |
| `ShutdownRuns.OneBody` | internal/shutdown/manager.go:110-149 | sync.Once lets one caller into the body, however many there are |
| `ShutdownRuns.AtMostOnce` | internal/shutdown/manager.go:110-226 | no hook starts twice and none ends twice, however many callers there are and however late it is called: it follows from sync.Once and the loops over groups and goroutines |
| `ShutdownRuns.WholeGroups` | internal/shutdown/manager.go:152-197 | when shutdown is over, exactly the groups before some group, from the highest priority down, have been waited for, all of them unless the context has expired, and no hook of a later group has been called or ever will be |
| `ShutdownRuns.ExactlyOnce` | internal/shutdown/timeout.go:51-81 | a hook of the snapshot that was called before its own timeout or the context's passed has started once when shutdown is over, and ended once if it ended before they passed |
| `ShutdownRuns.NothingStarted` | internal/shutdown/timeout.go:51-81 | whatever hooks there are, shutdown can be over with none of them called: when all their timeouts have passed first, or when the context has, and then only the first group's can still be called, afterwards |
| `ShutdownRuns.StateMovesForward` | internal/shutdown/manager.go:110-149 | the state moves only from Running to ShuttingDown to Shutdown, and done is closed once, at the end |
| `ShutdownRuns.SnapshotIsRegistered` | internal/shutdown/manager.go:152-161 | the snapshot is the hooks registered at that moment |
| `ShutdownRuns.SnapshotStays` | internal/shutdown/manager.go:152-174 | hooks registered later are not run |
| `ShutdownRuns.ReturnsAfterwards` | internal/shutdown/manager.go:110-149 | no caller of either entry point comes back before shutdown is over |
| `PathConverters.ConvertPathToChi` | internal/codegen/generator.go:369-389 | the byte loop: after a colon, everything up to the next slash is the name |
| `PathConverters.ConvertPathParams` | internal/openapi/mapper.go:895-906 | the split, the rewriting of parts that begin with a colon, and the join |
| `PathConverters.ChiOfJoin` | internal/codegen/generator.go:369-389 | the byte loop acts on each segment by itself |
| `PathConverters.SegmentsKept` | internal/openapi/mapper.go:895-906 | both converters map segments one to one, so neither changes their number |
| `PathConverters.AgreeExactly` | internal/codegen/generator.go:369-389 | the converters give the same result exactly when every segment that contains a colon begins with one |
| `PathConverters.Disagree` | internal/openapi/mapper.go:895-906 | a segment with text before its colon is converted by one and not by the other |

## Left out

- Case-insensitive entity lookup when several names match: the result depends on map order, so names are exact.
- The order in which a map of text-search columns is visited: the columns are a list.
- LIKE patterns, JSON containment, text search and array membership: atoms over a column and a parameter.
- The text that fmt.Sprint makes of a pattern's operand: a pattern keeps its operand.
- The spaces between SQL tokens: `SqlText.Text` puts one after each token.
- Sub-queries, relations and binding named parameters: the fields are not used by this code.
- Token positions, lines and columns, which only appear in error messages; the wording of error messages.
- Hexadecimal floats and float range errors in numbers; float values are kept as text.
- Bytes above 255 and UTF-8: characters stand for bytes.
- QueryText.QueryTextParses: keywords are written in small letters there, although the lexer reads them in any case; outside it are names that are no word of the lexer, an entity, an aggregated field or the first selected field named by a keyword, and a test without NOT of a field named `not`: the parser does not take such a word for a name there.
- Placeholders.PlaceholdersInStep: binding values to named parameters happens outside the compiler.
- Conversions of values when rows are scanned, and the values of aggregates and groups.
- SoftDelete.RunCommutes: queries that assign the soft-delete column are outside it; SoftDelete.DeadRowsKept covers them.
- The cache's mutex and cleanup goroutine: each operation is one step, at one time; hit and miss counters, Stats and Health.
- Identity of list elements in the cache: the list holds entries and the map sends a key to its entry.
- Overflow of the byte counter and of failure counts beyond 64 bits.
- GetOrSet, MGet, MSet, Keys and the JSON helpers of the cache; glob syntax is a predicate on keys.
- HTTP requests, authentication headers and retries of an integration client; panics inside a request.
- Logging, storage errors and the expiring storage wrapper of roles; GetUserPermissions; RoleBuilder and the default policy.
- Encoding of cursors: an encoded cursor decodes to itself.
- Order fields with equal or null values: of these only the pages themselves are modelled, not walks; walks backwards.
- An order field stored under another name where a further column bears its own: its cursors hold that column's values, and walks along it are not modelled.
- Columns qualified by a dot: a column is looked up, and named in a record, under its whole name.
- KeysetWalk.WalkEnumerates: the table does not change during a walk.
- Statements of other kinds in the scope checker (configuration, databases, models, authentication, middleware, events, integrations).
- The scope checker's record of variable types kept for tests, and positions in its errors.
- Reading migration files and the applied-at times: a migrator holds its sorted list. A commit that fails is taken to have changed nothing.
- Shutdown hooks' errors and durations: ending covers returning and panicking, and a timeout may pass at any time while its hook is waited for. The body of the once is a state machine over its steps, with the loops' counters as state, because other callers and goroutines step in between.
- Signal handling, the drainer, other circuit breakers and retry policies.
- The Participle grammars, code generation, OpenAPI mapping beyond paths, and everything that only moves data between libraries.
