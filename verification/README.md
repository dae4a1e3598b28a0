# A verified model of go-deployd

go-deployd answers requests over collections of JSON documents. Queries and
updates come in MongoDB's notation; a compiler turns them into SQL over whole
JSON documents or over typed columns with a JSON overflow. Around the stores run
a WebSocket hub, a metrics collector, schema migration, a prefix router and a
pool of script contexts. This project models these parts in Dafny, in the form
the Go code has - objects with fields, loops over maps in arbitrary order,
channels as bounded queues - and proves what they promise.

`dafny verify dfyconfig.toml` checks everything.

## Reading the project

| file | what it models |
|---|---|
| Values, Sql, Truth | JSON values; SQL search conditions as tokens and parse trees (section 8.12 of SQL-92), printing and parsing; three-valued evaluation on a row |
| Patterns | LIKE (section 8.5 of SQL-92), the small regular expressions, and both conversions between them |
| Emission, Translator, QueryMeaning | the recursive query compiler, the texts it may emit, and what they mean against the query |
| QueryBuilder, Builders | the pipeline conditions - map - conditions - text; the builders as objects |
| Updates, Commands | the update operators in the stores and in the simulation for validation |
| Layouts, Ordering, Stores | whole documents against columns with overflow; sorting; both stores as objects |
| ColumnUpdates, StoreRefinement | which updates columns can take; the column store refines the JSON store |
| HubModel, RealtimeHub | the hub as a state machine over runs, and as objects proved to take its steps |
| Metrics, Collector | incremental against batch aggregation; the collector's log, index, cleanup, saving and loading |
| Schema, Router, V8Pool | migrations, longest-prefix routing, the pool and its compile cache |

Go iterates maps in an order of its own: here every such loop picks any element
next, so each result holds for every order. A library whose text matters
(`%v`, the JSON encoder, RFC 3339 parsing, the V8 compiler, the calendar) is a
parameter, and so are the clock and new identifiers. The database is a
parameter that decides for a text, its arguments and a row what SQL decides.

## What turned out not to hold

Where the code does not do what it promises, a lemma names the case and the
condition under which it does.

- LIKE as emitted declares no escape character. SQLite has none of its own, so a
  literal percent or underscore in a `$regex` is converted wrongly there
  (`Patterns.LikeWithoutEscape`, `Patterns.LikeWithoutEscapeOnLines`).
- LIKE lets a wildcard match a line break, which a dot does not. On strings of several
  lines the conversion is right only for patterns with a literal core
  (`Patterns.LikeExactly`).
- The translator's own conversion replaces the dot before dot-star, so on one line it
  is right only without repetitions and without literal wildcards, and on all strings
  only for literal text (`Patterns.TranslatorLikeOnLines`, `Patterns.TranslatorLikeExact`).
- A null is equal to nothing in SQL. Equality with null is never true, `$ne` misses the
  documents without the field, and a null in a list spoils `$in` and `$nin`
  (`QueryMeaning.PredicateExactly`, `QueryBuilder.ConditionExactly`). `WhereNull` and
  `WhereNotNull`, which a `$exists` of a request becomes, select nothing
  (`QueryBuilder.NullTestSelectsNothing`).
- `$exists` sees no difference between a missing field and an explicit null
  (`QueryMeaning.ExistsExact`); in the builder it also ignores its argument
  (`QueryBuilder.ExistsIgnoresArgument`).
- A `$not` of a query that emits no text is dropped and selects everything; an element
  of a `$or` that emits none is passed over, although it holds of every row
  (`QueryMeaning.NegationExactly`, `QueryMeaning.MixedDisjunction`,
  `QueryMeaning.DroppedSelectsAll`).
- OR groups are lost when the stores rebuild a query, because `Or` accepts only
  base builders and the stores make SQL builders (`Builders.SQLQueryBuilder.ConvertGroups`).
  If they read other fields than the conditions of the query, the text selects too much
  unless each group repeats a condition or asks for nothing (`QueryBuilder.LostGroupsApart`).
- `Or` takes an alternative of several conditions for several alternatives
  (`QueryBuilder.FlatMeansGivenExactly`).
- Sorting by several fields sorts by them in an order that changes from call to call
  (`Ordering.DeterminedExactly`).
- An empty `$in` or `$nin` list makes the builder slice out of bounds
  (`Builders.BuildWhereClause`).
- An offset without a limit is a syntax error in SQLite and MySQL (`Stores.Store.Find`).
- A `$pull` that leaves nothing stores null (`Updates.PullThenRead`).
- Validation is shown `$push`, `$pull` and `$addToSet`, which are not stored, and
  is not shown `$inc` on a missing field, which is (`Commands.SimulatedIsStored`).
- A column that is unset keeps its value, a null in a column reads as missing, and
  a projection that excludes `data` loses the overflow (`Layouts.RewriteReadsBack`,
  `Layouts.ReadBack`, `Layouts.PushDownInvisible`).
- Insert stamps `createdAt` and `updatedAt`, but the columns are `created_at` and
  `updated_at`, which SQL fills in. A document read from the columns has two more
  fields than from the JSON store, so the stores are compared without the columns that
  have a default (`StoreRefinement.FindAgrees`, `ColumnUpdates.SystemIsLayout`).
- A property of an array or object type becomes a JSON column, which reads back as the
  text of its value (`Layouts.ConvertKeeps`).
- A null in a column field makes the stores part at the next `$inc`, `$push` or
  `$addToSet` (`StoreRefinement.NullsPartExactly`).
- SQLite refuses some of the columns a migration adds (`Schema.MigrationsMigrate`).
- On MySQL the time stamp columns are modified at every start
  (`Schema.TimestampsNeverSettle`).
- Unregistering a client that is in a room waits for ever for the lock it holds
  (`HubModel.BlocksExactly`).
- An emit to a room with a member that a broadcast evicted writes to a closed
  channel (`HubModel.EvictedMemberPanics`).
- Paths with trailing slashes can make the longest match ambiguous
  (`Router.AmbiguousExactly`).
- A changed script keeps running from the compile cache (`V8Pool.ReplacedSourceFresh`).

## Model

| member | source | states |
|---|---|---|
| Translator.QueryTranslator.TranslateQuery | internal/database/query_translator.go:19-51 | For every query, dialect and map order: it fails exactly for malformed queries; it is empty exactly for dropped queries, those that name none of the eleven operators; the k-th placeholder is $k on PostgreSQL and a question mark elsewhere, and there are as many as arguments; and for every handled query, bound to its arguments and parsed with SQL precedence, the text selects soundly on every suitable row under three-valued logic and exactly where no null is involved, by the meaning that each operator has by its name |
| Translator.QueryTranslator.TranslateClause | internal/database/query_translator.go:323-345 | The AND of the clauses of all entries, in whatever order the map is iterated, empty ones dropped; the index returned is the index given plus the number of arguments |
| Translator.QueryTranslator.TranslateCondition | internal/database/query_translator.go:54-68 | One entry dispatched to an operator, to field operators or to equality: text, arguments and next index of exactly that clause |
| Translator.QueryTranslator.TranslateOr | internal/database/query_translator.go:71-152 | Disjunction of the parenthesised clauses of the non-empty elements; an error from any element |
| Translator.QueryTranslator.TranslateAnd | internal/database/query_translator.go:71-152 | Conjunction of the non-empty elements, arguments in order |
| Translator.QueryTranslator.TranslateOperator | internal/database/query_translator.go:71-152 | Or, and, not, and no text for any other operator at the top |
| Translator.QueryTranslator.TranslateFieldOperators | internal/database/query_translator.go:155-320 | All operators of a field, in whatever order, in one pair of parentheses, or nothing when all are dropped |
| Translator.QueryTranslator.TranslateFieldOperator | internal/database/query_translator.go:155-320 | One operator on a field, with the empty-list constants of $in and $nin and the dialect forms of $regex and $size |
| QueryMeaning.ClauseDecides | internal/database/query_translator.go:54-345 | Through any nesting of or, and, not, ne and nin, with parts that emit nothing where that does no harm: TRUE only for rows the query matches, FALSE only for rows it does not, and decided when no null is involved, for every iteration order |
| QueryMeaning.PredicateDecides | internal/database/query_translator.go:155-320 | The same for each single operator on a field, by its name: greater for $gt, membership for $in, presence for $exists, and so for all eleven |
| QueryMeaning.PredicateExactly | internal/database/query_translator.go:155-320 | Each operator's text selects a row rightly exactly when nulls do no harm: equality, $gte and $lte fail where both sides are null, $ne where one is, $in on a missing field listed as null, $nin on an unlisted value if it or the list has a null |
| QueryMeaning.OrDecides | internal/database/query_translator.go:71-152 | The same for $or, from its elements |
| QueryMeaning.NotDecides | internal/database/query_translator.go:71-152 | The same for $not, from the negated query |
| QueryMeaning.AndDecides | internal/database/query_translator.go:71-152 | The same for $and, from its elements |
| QueryMeaning.FieldDecides | internal/database/query_translator.go:155-320 | The same for the operators on one field together |
| QueryMeaning.WhereIsTerm | internal/database/query_translator.go:19-51 | Every emitted text, bound to its arguments and parsed, evaluates to the AND of the factors it prints, dropped parts or not |
| QueryMeaning.PlaceholdersAlign | internal/database/query_translator.go:348-357 | The k-th placeholder from the left is the one for the k-th argument, and the next index is the start index plus the argument count |
| QueryMeaning.EmittedSelectsRight | internal/database/query_translator.go:19-51 | Soundness and null-free exactness carried from the factors to the text and its arguments |
| QueryMeaning.ExistsExact | internal/database/query_translator.go:155-320 | $exists is right on a row exactly when the field does not hold an explicit null |
| Emission.DroppedExactly | internal/database/query_translator.go:54-345 | A query emits no text, in every iteration order, exactly when it is dropped: all elements of its $or and $and are, a $not is of a dropped query, and fields have none of the eleven operators |
| Emission.OnlyOthersDropped | internal/database/query_translator.go:155-320 | The switch handles the eleven names and no others |
| QueryMeaning.NegationExactly | internal/database/query_translator.go:71-152 | The negation of a query of handled operators is sound, and exact without nulls, on all suitable rows exactly when the query is not dropped |
| QueryMeaning.DroppedSelectsAll | internal/database/query_translator.go:323-345 | A query that emits no text selects every row, which is right on every row if the query is vacuous, a syntactic condition, and on none otherwise |
| QueryMeaning.MixedDisjunction | internal/database/query_translator.go:71-152 | A $or with some elements dropped matches every row, but without nulls its text selects exactly the rows that an element not dropped matches |
| QueryMeaning.StandardExists | internal/database/query_translator.go:155-320 | There is a database as the comparison supposes one, with and without an escape character |
| Sql.ParseWherePrinted | internal/database/query_translator.go:323-345 | Round trip: the printed form of any search condition parses back, with NOT before AND before OR, to the same condition |
| Sql.BindErased | internal/database/query_translator.go:348-357 | Replacing literals by placeholders and binding the arguments gives the literals back, numbered or not |
| Sql.ErasedPlaceholders | internal/database/query_translator.go:348-357 | The placeholders left in the text are numbered from the start index, one for each literal, in order |
| Emission.AddClause | internal/database/query_translator.go:323-345 | Joining one more clause with AND prints the longer conjunction, with arguments and index threaded through |
| Emission.PrintsDisjunction | internal/database/query_translator.go:71-152 | Joining parenthesised clauses with OR inside parentheses prints their disjunction as one factor |
| Emission.PrintsNegation | internal/database/query_translator.go:71-152 | NOT before a parenthesised clause prints its negation as one factor |
| Emission.PrintsMembership | internal/database/query_translator.go:155-320 | A list of as many placeholders as values prints the IN predicate over these values |
| Patterns.RegexToLike | internal/database/query_builder.go:306-348 | The chain of whole-string rewrites computes the pattern the lemmas below are about |
| Patterns.PassesAreOnePass | internal/database/query_builder.go:306-348 | On patterns of literals, dots, dot-star and dot-plus with optional anchors the chain equals a one-pass translation of the pieces |
| Patterns.LikeFinds | internal/database/query_builder.go:306-348 | With a backslash as escape, or none and no literal wildcard, LIKE accepts exactly the strings, of any number of lines, in which the pattern is found if a dot may be a newline |
| Patterns.LikeIsSearch | internal/database/query_builder.go:306-348 | So it accepts exactly the strings in which the regular expression is found, for every string of one line, and for every string when the core is literal: what is left without a leading dot-star where the start is open and a trailing one where the end is |
| Patterns.LikeExactly | internal/database/query_builder.go:306-348 | LIKE and the search agree on all strings exactly when the core is literal: any other core is missed on some string of several lines |
| Patterns.LikeWithoutEscape | internal/database/query_builder.go:306-348 | Where LIKE has no escape character, they agree on all strings exactly when the core is literal and there is no literal percent or underscore |
| Patterns.LikeWithoutEscapeOnLines | internal/database/query_builder.go:306-348 | On strings of one line exactly when there is no literal percent or underscore |
| Patterns.TranslatorRegexToLike | internal/database/query_translator.go:427-454 | The translator's own rewrite chain computes the pattern of the next row |
| Patterns.TranslatorLikeExact | internal/database/query_translator.go:427-454 | With either escape, the translator's conversion is right on all strings exactly when the pattern is literal text without percent and underscore |
| Patterns.TranslatorLikeOnLines | internal/database/query_translator.go:427-454 | On strings of one line exactly when the pattern has neither repetition nor a literal percent or underscore |
| Patterns.RegexDetermines | internal/database/query_builder.go:306-348 | The text of a pattern determines its anchors and pieces, so what it matches is well defined |
| Builders.BaseQueryBuilder.Where | internal/database/query_builder.go:28-35 | Appends one condition and changes nothing else |
| Builders.BaseQueryBuilder.WhereNull | internal/database/query_builder.go:45-47 | Appends an equality with null, which is never true |
| Builders.BaseQueryBuilder.WhereNotNull | internal/database/query_builder.go:49-51 | Appends an inequality with null, which is never true either |
| Builders.BaseQueryBuilder.And | internal/database/query_builder.go:68-75 | Appends the conditions of the given base builders in order, itself included, and passes over SQL builders |
| Builders.BaseQueryBuilder.Or | internal/database/query_builder.go:57-66 | Appends one group of all conditions of the given base builders, the conditions of one alternative like separate ones; an empty one if all are SQL builders |
| Builders.BaseQueryBuilder.ToMap | internal/database/query_builder.go:87-131 | Computes the map of the conditions, later ones over earlier ones, and the groups under $or |
| QueryBuilder.MapKeepsSurvivors | internal/database/query_builder.go:87-131 | The map stands for exactly those conditions that no later condition on their field undoes |
| QueryBuilder.LastInGroup | internal/database/query_builder.go:111-128 | A group's map has the last condition on each field |
| Builders.SQLQueryBuilder.ConvertMap | internal/database/sqlite.go:546-575 | Whatever the iteration orders, the builder ends with every condition of the map once and no others, and every group that $or adds is empty |
| Builders.SQLQueryBuilder.ConvertGroups | internal/database/sqlite.go:546-575 | The entry $or: SQL builders made of its maps and given to Or, which takes none of their conditions and adds one empty group |
| Builders.SQLQueryBuilder.ToSQL | internal/database/query_builder.go:174-259 | Panics exactly when an $in or $nin list is empty, in a condition or a group; otherwise prints the AND of all conditions and of one disjunction for each group that has a text, with all arguments in order |
| Builders.SQLQueryBuilder.GroupText | internal/database/query_builder.go:208-240 | The alternatives of one group joined by OR in parentheses, or nothing when no alternative has a text |
| Builders.SQLQueryBuilder.ConditionText | internal/database/query_builder.go:174-303 | Text and arguments of one condition, over a column or a JSON path |
| Builders.BuildWhereClause | internal/database/sqlite.go:529-544 | For a base builder, whatever its OR groups: panics exactly when a surviving condition has an empty list, else a WHERE text with aligned arguments that on every row is true where all surviving conditions are and false where one is. For an SQL builder its own text, groups included |
| QueryBuilder.LostGroupsCovered | internal/database/sqlite.go:529-575 | Without its groups a query still selects the right rows of every table if each non-empty group has a condition that survives or asks for nothing |
| QueryBuilder.LostGroupsApart | internal/database/sqlite.go:529-575 | If the other groups read no column or field that a surviving condition asks something of, losing the groups is right on all rows exactly when there are no other groups, or the text selects no row |
| QueryBuilder.FlatMeansGivenExactly | internal/database/query_builder.go:57-66 | A group of conditions that read different fields means the alternatives they were given in exactly when each alternative has one condition |
| QueryBuilder.SinglesMeanGiven | internal/database/query_builder.go:57-66 | Alternatives of one condition each always keep their meaning |
| QueryBuilder.BuilderTrue | internal/database/query_builder.go:174-259 | An SQL builder's own text is true on a row exactly where all its conditions are and every group with a text has a true alternative |
| QueryBuilder.GroupCases | internal/database/query_builder.go:208-240 | A group's alternatives: true where one with a text is, false where all are |
| QueryBuilder.PipelineConjoins | internal/database/sqlite.go:546-575 | The truth value does not depend on iteration orders: it is the conjunction of the surviving conditions |
| QueryBuilder.SeparateSurvive | internal/database/query_builder.go:87-131 | When no field mixes equality with another operator and none repeats, all conditions survive and nothing else appears |
| QueryBuilder.ConditionDecides | internal/database/query_builder.go:278-348 | One condition's text is sound for what its operator asks by its name, and decided without nulls |
| Truth.SplitAtDots | internal/database/query_builder.go:262-275 | The parts of a JSON path are what its dots separate |
| QueryBuilder.ConditionExactly | internal/database/query_builder.go:278-348 | One condition's text selects a row rightly exactly when nulls do no harm, as for the translator |
| QueryBuilder.UnknownIsEquality | internal/database/query_builder.go:278-303 | An operator without a case of its own is compared for equality |
| QueryBuilder.PanicsOnEmpty | internal/database/query_builder.go:198-206 | The slice out of bounds is that of $in and $nin with an empty list |
| QueryBuilder.NullTestSelectsNothing | internal/database/query_builder.go:45-51 | A query in which a comparison with null survives selects no row of any table |
| QueryBuilder.SeparateDecides | internal/database/query_builder.go:87-303 | For separate conditions the text means the conjunction of the conditions as written, soundly under three-valued logic and exactly without nulls, and does not panic |
| QueryBuilder.ExistsIgnoresArgument | internal/database/query_builder.go:278-303 | The builder's $exists drops its argument: over a column or a JSON path it is right for the argument true except on an explicit null, and for false only there |
| Updates.Doc.ApplyUpdateOperations | internal/database/sqlite.go:616-687 | Runs every step of the update exactly once, in some order; if no field is named twice, every field named has had what its operator is for and all others are what they were; with the other rules, the simulation of collection.go |
| Updates.Doc.Apply | internal/database/sqlite.go:616-687 | One operator on one field: set to the value, gone, increased by it, the elements and then the value, exactly the elements not like it in their order, or the value added unless one is like it; no other field changes |
| Updates.UpdatedFields | internal/database/sqlite.go:616-687 | If no field is named twice, each field ends with the effect of its own step on its first value, and an unnamed field keeps its value |
| Updates.UpdateMeets | internal/database/sqlite.go:616-687 | If no field is named twice, the update does what its operators are for by their names, in every iteration order |
| Updates.EachStepDoes | internal/database/sqlite.go:616-687 | In any update, each step does to its field what its operator is for, and nothing to others |
| Updates.OrderIndependent | internal/database/sqlite.go:616-687 | If no field is named by two operators every iteration order gives the same document |
| Updates.OrderMatters | internal/database/sqlite.go:616-687 | Setting and unsetting the same field can end either way |
| Updates.PullThenRead | internal/database/sqlite.go:650-663 | A pull reads back as the filtered array exactly when some element is not like the value pulled, and otherwise as null |
| Updates.EncodeDecoded | internal/database/sqlite.go:706-716 | A value decoded from JSON survives a round through JSON unchanged |
| Commands.UpdateBuilder.Convert | internal/resources/collection.go:1500-1515 | The update built from a command body has exactly its $set, $unset and $inc fields, whatever the orders |
| Commands.ConvertedAsks | internal/resources/collection.go:1500-1515 | What is asked of the store is exactly what the body asks for by $set, $unset and $inc |
| Commands.UpdateBuilder.ToMap | internal/database/query_builder.go:409-415 | Every operator collected, with its fields |
| Commands.SimulatedIsStored | internal/resources/collection.go:1459-1616 | For a command naming each field once, the document shown to validation equals the stored one but for updatedAt exactly when it increments no missing field and pushes, pulls or adds nothing |
| Commands.FieldDiverges | internal/resources/collection.go:1538-1616 | Exactly when the simulated and the stored effect on one field differ |
| Commands.HandleCommand | internal/resources/collection.go:1459-1535 | Runs the body in the simulation and its $set, $unset and $inc in the store; for a body that names no field twice both documents have had exactly what it asks for, all other fields are kept, and both are related by the condition above; the stored one is stamped |
| Layouts.ConvertKeeps | internal/database/column_store.go:146-219 | Exactly which values each column type keeps unchanged |
| Layouts.Converts | internal/database/column_store.go:146-219 | What each column type makes of any value: integers cut off towards zero, booleans from true, 1 or a number that is not zero, other values as text |
| Layouts.SeparateData | internal/database/column_store.go:109-143 | The loop computes the column part and the overflow of a document |
| Layouts.SplitPartitions | internal/database/column_store.go:109-143 | Column part and overflow are disjoint and together have exactly the document's fields |
| Layouts.ScanRow | internal/database/column_store.go:491-542 | The loop over the selected columns merges the overflow and the non-null columns |
| Layouts.ScanAt | internal/database/column_store.go:491-542 | What each field of a scanned row reads as, independent of the column order |
| Layouts.ReadBack | internal/database/column_store.go:109-254 | Reading an inserted row gives the document back exactly when its columns keep their values, hold no null, columns left out have no default and the overflow is JSON |
| Layouts.ApplyFieldProjection | internal/database/column_store.go:558-595 | With a field included, the included ones and the identifier unless it is named; otherwise all that are not excluded; values unchanged |
| Layouts.BuildSelectClause | internal/database/column_store.go:310-359 | The columns selected for a projection, whatever the order of its fields |
| Layouts.PushDownInvisible | internal/database/column_store.go:310-359 | Selecting only a projection's columns changes no projected document, except that excluding the name data hides overflow fields the projection does not exclude; exactly then |
| Layouts.SameFetch | internal/database/query_builder.go:262-275 | A condition on a field fetches the same value from the split row as from the whole document if the field is kept by its column, null included, or left out and not filled in by SQL, and the column has no dotted name |
| Layouts.RewriteReadsBack | internal/database/column_store.go:656-722 | A rewritten row reads back as the new document exactly when the identifier is the row's, no non-null column was unset, columns keep their new values and the overflow is JSON |
| ColumnUpdates.ColumnExactly | internal/database/column_store.go:656-722 | For an update that names each field once, a column can be read back after it exactly when it can take the step that names it: values set and sums are kept and not null, what is unset was empty, nothing is pushed or added to an empty one |
| ColumnUpdates.StaticRun | internal/database/sqlite.go:616-687 | Steps that unset, push to and add to no column, and set and increment columns by values they keep, leave every column a value it keeps, in any order and however often they name it |
| ColumnUpdates.StaticFits | internal/database/sqlite.go:616-687 | Each such step suits every row whose columns keep their cells |
| ColumnUpdates.WrittenReads | internal/database/column_store.go:656-722 | A row whose columns fit the new document reads as that document's JSON after the write, and stays sound |
| ColumnUpdates.UpdateReadsBack | internal/database/column_store.go:627-722 | For every update of such steps every chosen document with an identifier reads back as the JSON of its update in its own iteration order, no other row changes, and all rows stay sound |
| ColumnUpdates.ColumnsBecome | internal/database/column_store.go:627-722 | So has every chosen document read from the columns |
| ColumnUpdates.SystemIsLayout | internal/database/schema.go:187-218 | The columns every collection has make a layout the refinement is about, with both time stamp columns filled in by SQL |
| ColumnUpdates.MoreColumns | internal/database/schema.go:187-218 | And so with any further columns of other names that keep their defaults |
| Stores.RunQuery | internal/database/column_store.go:257-307 | The rows selected are, in table order, those on which every surviving condition is true |
| Stores.HitsPick | internal/database/column_store.go:257-307 | A row is among those selected exactly when every surviving condition is true on it |
| Ordering.OrderBy | internal/database/column_store.go:292-296 | The rows selected, sorted by the fields in some iteration order of the map; without fields in table order |
| Ordering.BuildOrderClause | internal/database/column_store.go:462-488 | The fields to sort by, each once, in any order |
| Ordering.PrecedesByFields | internal/database/column_store.go:462-488 | A row stands before another by each field on which all earlier fields tie, ascending or with the direction -1 descending |
| Ordering.DeterminedExactly | internal/database/column_store.go:462-488 | All iteration orders sort all rows alike exactly when there is at most one field to sort by, for fields that read different values and an order that tells two values apart |
| Stores.Store.Insert | internal/database/column_store.go:54-106 | Identifier and time stamps completed where the document has none, one row appended unless its identifier is taken, nothing else changed; the table stays sound |
| Stores.Completed | internal/database/sqlite.go:213-246 | Every field of the caller's document is kept, the identifier too; only a missing identifier or time stamp is filled in |
| Stores.NewRowReads | internal/database/sqlite.go:213-246 | A new row of the JSON store reads as its document's JSON and has its identifier |
| Stores.Store.Find | internal/database/column_store.go:257-307 | Panics exactly when a surviving condition has an empty list, and is a syntax error exactly for an offset without a limit; otherwise of an answer, the selected rows sorted in some iteration order, the first rows of the offset are passed over and then as many returned as there are or the limit allows, each as its result |
| Stores.ResultReads | internal/database/column_store.go:257-542 | Each field of a result: with some field included the included ones and the identifier, otherwise all that are not excluded, as the row reads |
| Stores.PagesAreAll | internal/database/column_store.go:298-304 | The pages of any size, one after the other, are all that was selected |
| Stores.Chosen | internal/database/sqlite.go:342-345 | One document at most if only one is asked for, and one if there is any; all otherwise |
| Stores.Store.PerformUpdate | internal/database/column_store.go:627-686 | Always the updates of the chosen documents one after the other, each in its own order, on all rows with its identifier, and the count of those that change the document, or in the column store of all; when the identifier is left alone exactly the chosen rows are updated, each as if alone, the table stays sound, the JSON store counts the rows that changed, and its chosen documents become what the update is for, stamped |
| Stores.UpdateOneMore | internal/database/column_store.go:656-722 | Writing one document by its identifier touches no other row |
| Stores.UpdatedFits | internal/database/sqlite.go:331-381 | An update that leaves the identifier alone keeps identifiers unique and equal to their documents' |
| Stores.UpdatedBecame | internal/database/sqlite.go:331-381 | In the JSON store every chosen document has had what the update's operators are for, and the time, and no other row changed |
| StoreRefinement.FindAgrees | internal/database/column_store.go:257-542 | Tables holding the same documents may give the same answers to any query, in the same orders, with the same documents up to the columns SQL fills in; sorted, limited, skipped, projected or not |
| StoreRefinement.AnswersAgree | internal/database/column_store.go:462-488 | Sorting by fields that SQL does not fill in may give the same orders in both stores |
| StoreRefinement.PicksAgree | internal/database/column_store.go:372-427 | A row is selected from the columns exactly when its document is selected from the JSON store, for conditions that name no column SQL fills in |
| StoreRefinement.NullsSelectAlike | internal/database/column_store.go:372-427 | Selection from the columns agrees with the JSON store for every document whose fields in the conditions are null or kept by their columns |
| StoreRefinement.NullsPartExactly | internal/database/column_store.go:491-542 | After a null was stored in a column, a step has different effects in the two stores, nulls read as missing, exactly when it is $inc by a value, $push or $addToSet |
| StoreRefinement.InsertAgrees | internal/database/sqlite.go:213-246 | A document whose column fields are kept and not null is held alike by both new rows, whatever columns it leaves to SQL |
| StoreRefinement.UpdateAgrees | internal/database/sqlite.go:331-381 | Updating the chosen documents in both stores, each in its own iteration orders, leaves the same documents in both, if the steps suit the columns of the chosen rows |
| StoreRefinement.StaticSuits | internal/database/sqlite.go:616-687 | A condition on the update alone under which its steps suit every sound table |
| StoreRefinement.RunsAgree | internal/database/column_store.go:54-722 | Over any run of inserts and updates that suit the rows they find, started empty, both stores hold the same documents after every operation, up to the columns SQL fills in |
| StoreRefinement.Perform | internal/database/sqlite.go:213-381 | Each operation on a store object takes the step of the runs and leaves the store ready for the next |
| StoreRefinement.Replay | internal/database/column_store.go:54-722 | Two store objects given any list of inserts and updates that pass a condition on the operations alone end with the same documents |
| HubModel.StepKeepsInv | internal/realtime/websocket.go:120-170 | Every step keeps: membership implies the room is in the client's set, conversely for live clients, no empty rooms, live clients have an open channel, no queue over its capacity |
| HubModel.PanicsExactly | internal/realtime/websocket.go:418-495 | No step closes a closed channel; a send on a closed one happens exactly when a room has a member closed elsewhere or such a client is answered |
| HubModel.BlocksExactly | internal/realtime/websocket.go:139-150 | The unregister case waits for its own lock for ever exactly when the client is live and in a room; it is then closed and still a member |
| HubModel.EvictedMemberPanics | internal/realtime/websocket.go:157-167 | A client evicted by a broadcast stays in its rooms, and the next emit there panics |
| HubModel.NoLiveClientMisses | internal/realtime/websocket.go:120-170 | In every reachable state, what a live client has taken and has queued is, in order, what the events alone say it is owed: its connect message and replies, every broadcast since it registered and every emit to a room it joined and has not left |
| HubModel.MembersByHistory | internal/realtime/websocket.go:386-415 | A live client is in a room, by the room and by its own list, exactly when the last of its events for the room is a join |
| HubModel.LiveByHistory | internal/realtime/websocket.go:120-170 | A client is live exactly from its registration until it is unregistered, or a broadcast or an emit finds 256 messages waiting, or the clean-up one |
| HubModel.RequestWaits | internal/realtime/websocket.go:418-441 | With a live client in the room by the events, an emission asked for is pending |
| HubModel.PendingByHistory | internal/realtime/websocket.go:418-441 | Pending emissions and those made are, together, those asked for while the room had a member |
| HubModel.EmitReaches | internal/realtime/websocket.go:441-494 | An emission reaches each member with space; a full one loses its oldest message, the room and the hub |
| HubModel.TakenByHistory | internal/realtime/websocket.go:230-270 | The write pump has taken one message for each time it drained |
| HubModel.UnregisteredGone | internal/realtime/websocket.go:139-150 | An unregistered client is in no room, and no other has left one |
| HubModel.CleanedGone | internal/realtime/websocket.go:669-712 | The clean-up takes exactly the live clients with waiting messages out of all rooms |
| HubModel.NothingOwedBefore | internal/realtime/websocket.go:120-170 | By the events, nothing is owed to a client before it registers, and it is in no room |
| HubModel.ClosedOnce | internal/realtime/websocket.go:120-170 | In a run without panic no channel is closed by two steps |
| HubModel.ClosesExactly | internal/realtime/websocket.go:120-170 | A step closes a channel exactly when its live client is unregistered, or is full when a broadcast reaches it |
| HubModel.RunKeepsInv | internal/realtime/websocket.go:120-170 | The invariant holds in every reachable state |
| HubModel.StepDelivers | internal/realtime/websocket.go:120-170 | One step extends what a live client has received by exactly what the step owes it |
| RealtimeHub.Hub.Register | internal/realtime/websocket.go:123-137 | The register case is the model's step |
| RealtimeHub.Hub.Unregister | internal/realtime/websocket.go:139-150 | The unregister case is the model's step, its panic, or its wait for the lock it holds, as written and with that repaired |
| RealtimeHub.Hub.Broadcast | internal/realtime/websocket.go:157-167 | The broadcast case, in any order of clients, is the model's step or its panic: each client with fewer than 256 messages gets it, the others are closed and dropped |
| RealtimeHub.Hub.AddToRoom | internal/realtime/websocket.go:386-401 | Joining is the model's step: the client and no other becomes a member of the room and of no other |
| RealtimeHub.Hub.RemoveFromRoom | internal/realtime/websocket.go:404-415 | Leaving is the model's step: the client and no other is taken out of the room and of no other |
| RealtimeHub.Hub.EmitToRoom | internal/realtime/websocket.go:418-495 | Asking for an emission starts one exactly when the room has members |
| RealtimeHub.Hub.Emit | internal/realtime/websocket.go:441-494 | The emitting goroutine, with its clean-up, is the model's step or its panic |
| RealtimeHub.Hub.CleanupDeadClients | internal/realtime/websocket.go:669-712 | The clean-up, which takes a message from every client that has one, is the model's step |
| RealtimeHub.Hub.Drain | internal/realtime/websocket.go:230-270 | The write pump takes the oldest message |
| Metrics.Accumulate | internal/metrics/collector.go:299-368 | The bucket's statements, in order, compute the step of the next row |
| Metrics.StepSummarizes | internal/metrics/collector.go:299-368 | If an aggregate has the count, average, extremes, per-type counts, errors and rate of a list, then after one more metric it has those of the longer list |
| Metrics.ErrorsCounted | internal/metrics/collector.go:318-352 | The errors are the requests answered with 400 or more, the failures, and the database operations and hooks with a message |
| Metrics.KindsCounted | internal/metrics/collector.go:318-352 | The counts per type are the numbers of metrics of the type |
| Metrics.HourTimes | internal/metrics/collector.go:280-297 | Buckets of an hour start on full hours, and are kept for seven days |
| Metrics.AddSummarized | internal/metrics/collector.go:280-368 | Recording keeps every retained bucket equal to the batch computation over all of its metrics, because a dropped bucket can never be filled again |
| Metrics.DropSummarized | internal/metrics/collector.go:380-402 | Dropping old buckets keeps that |
| Metrics.DayIsItsHours | internal/metrics/collector.go:280-297 | Each metric of a UTC day is in exactly one of its hours |
| Metrics.DayCountsItsHours | internal/metrics/collector.go:280-421 | A retained day counts the sum of its retained hours exactly until an hour with metrics was dropped |
| Collector.Collector.RecordMetric | internal/metrics/collector.go:219-240 | Appends to the log, and leaves the detailed metrics of the last 24 hours, their index by event, a bucket for every hour with metrics of the last seven days, and all aggregates in agreement with it |
| Collector.Collector.Cleanup | internal/metrics/collector.go:370-421 | Keeps exactly the metrics newer than a day and the buckets that do not start before their cutoff, and no empty event |
| Collector.Collector.Restart | internal/metrics/collector.go:92-158 | Loading what was saved restores the agreement with the log as it was when saved |
| Collector.Collector.Flush | internal/metrics/collector.go:176-217 | What is written agrees with the log |
| Collector.AddIndexes | internal/metrics/collector.go:219-240 | Recording keeps the event index equal to the log filtered by event |
| Collector.IndexedExactly | internal/metrics/collector.go:219-240 | A metric is under an event exactly when it is a hook's of that event |
| Collector.NewerIndexes | internal/metrics/collector.go:404-421 | Filtering metrics and index by age separately keeps them equal, and drops emptied events |
| Collector.NewerCounts | internal/metrics/collector.go:370-378 | The metrics newer than a cutoff are kept, each as often as it was there, and no others |
| Collector.AddAgrees | internal/metrics/collector.go:219-240 | Recording, before the cleanup, keeps the agreement |
| Collector.CleanAgrees | internal/metrics/collector.go:370-421 | Cleaning up restores it in full at the new time |
| Collector.DaysAddUp | internal/metrics/collector.go:280-421 | In every reachable state a retained day adds up exactly until one of its hours with metrics was dropped |
| Schema.GenerateMigrations | internal/database/schema.go:565-631 | The three loops compute the additions, drops and modifications |
| Schema.ModifiedUnlessAlike | internal/database/schema.go:644-660 | A column is modified exactly unless type, NOT NULL and printed default agree |
| Schema.MigrationsMigrate | internal/database/schema.go:565-722 | Applied in order, the generated steps are all accepted exactly when no missing column is one SQLite refuses to add: a primary key, or on a table with rows one that defaults to the current time or is NOT NULL without a default; every desired column is then present, on MySQL with a definition that agrees and nothing else but system columns; no system column is removed; on SQLite old columns are untouched and only additions occur |
| Schema.SecondGenerationEmpty | internal/database/schema.go:565-631 | On the migrated table a second generation is empty |
| Schema.TypeRoundTrip | internal/database/schema.go:366-391 | Every column type reads back from the MySQL type it is created with |
| Schema.StableExactly | internal/database/schema.go:326-363 | Exactly which definitions MySQL gives back unchanged |
| Schema.ReadBackSettles | internal/database/schema.go:467-660 | Read back from MySQL, the columns just created are migrated again unless every definition is stable |
| Schema.TimestampsNeverSettle | internal/database/schema.go:188-218 | With the time stamp columns that every collection has, a second generation on MySQL is never empty |
| Router.Router.FindMatchingResource | internal/router/router.go:202-209 | The first resource that matches, or none when none does |
| Router.FirstIsLongest | internal/router/router.go:202-220 | In a sorted list the first match has a longest path of all that match, and of those the most segments |
| Router.MatchesByPrefix | internal/router/router.go:211-220 | The root matches all requests, any other path those that begin with it, one trailing slash aside |
| Router.OverlapExactly | internal/router/router.go:211-220 | Some request matches two paths exactly when one path, without its trailing slash, begins with the other |
| Router.AmbiguousExactly | internal/router/router.go:211-220 | Some request has two longest matches with different paths exactly when two resources clash: different paths of one length, one overlapping the other, and no longer path with the same stem |
| Router.TidyNeverClash | internal/router/router.go:211-220 | Rooted paths without trailing slashes never clash |
| Router.Router.AddResource | internal/router/router.go:226-229 | The same resources and the new one, sorted |
| Router.Router.UpdateResource | internal/router/router.go:231-239 | The first resource of that name replaced, then sorted |
| Router.Router.RemoveResource | internal/router/router.go:241-248 | The first resource of that name gone, the order of the others kept |
| Router.Router.SortResources | internal/router/router.go:261-275 | A permutation, longer paths first, then more segments |
| Router.StepKeepsSorted | internal/router/router.go:226-248 | Every operation keeps the list sorted |
| Router.RunsRouteByLongest | internal/router/router.go:202-275 | After any operations from a sorted list every request goes to a longest matching path, which is the only one wherever no two resources clash |
| V8Pool.V8Pool.constructor | internal/events/v8_pool.go:50-97 | All contexts idle, as many as asked for or four |
| V8Pool.V8Pool.AcquireContext | internal/events/v8_pool.go:158-174 | The next idle context becomes held and is not worn out; nothing else changes |
| V8Pool.V8Pool.ReleaseContext | internal/events/v8_pool.go:177-221 | A held context becomes idle once more, recreated after more than a thousand executions, and never overflows; a context that is not held is queued twice or overflows |
| V8Pool.RoomToReturn | internal/events/v8_pool.go:177-205 | While a context is out there is room to return it |
| V8Pool.V8Pool.PrecompileScript | internal/events/v8_pool.go:100-121 | Storing a source that does not change a path leaves the cache fresh |
| V8Pool.V8Pool.CompiledScript | internal/events/v8_pool.go:255-288 | The script run is the cached one for this isolate, or else a fresh compilation; on a fresh cache always what compiling now would give |
| V8Pool.ReplacedSourceFresh | internal/events/v8_pool.go:100-121 | After a source changed the cache is fresh exactly when the new source compiles to what is cached on every isolate that has it |

## Left out

- Database drivers, HTTP handlers, MongoDB, Redis and RabbitMQ clients, and `internal/database/mysql.go`, which repeats the SQLite store.
- Character-level SQL: quoting of names and the text of JSON paths. A column or path reference is one token, so a dotted name in the translator is one field.
- Comparison across types, collations, case folding in LIKE, floating point: values of different types are not equal, conditions are compared within one type, and numbers are exact. The order that sorts is a parameter.
- Regular expressions beyond literals, dots, dot-star, dot-plus and anchors; a final anchor matches at the end of the string only.
- Builders.SQLQueryBuilder.ToSQL: raw conditions, which no code of the repository adds, are not printed; nor are the other raw-query methods modelled.
- Stores.Store.Find: limits and offsets are not negative, and without fields to sort by the rows come in table order.
- Builders.SQLQueryBuilder.ConvertGroups: a caller's own `$or` list, which in Go may have another type and is then passed over, adds its empty group in the model too; neither has a text.
- Builders.BaseQueryBuilder.ToMap: an operator joining an object given as an equality's value is also written into the caller's own map, which the model, with maps as values, does not show.
- QueryBuilder.SeparateDecides: `$exists` and unknown operators, which the builder takes for equality, are excluded.
- QueryMeaning.ClauseDecides: only handled operators, no dropped negations and no `$or` with some but not all elements dropped, on rows whose values the operators can compare; for `$regex` on SQLite and MySQL only patterns the translator converts rightly, on one line or literal.
- Stores.Store.PerformUpdate: one clock reading serves all documents of a call; an update that names the identifier may leave two rows with one identifier, so that nothing is promised for later calls; database errors do not occur.
- Stores.Store.Insert: the caller's document is not changed in place; identifiers that are arrays or objects, which drivers refuse, are stored.
- Layouts.ReadBack: the database gives back the values it was given. SQLite's type affinities, under which a numeric text in an integer column becomes a number, are left out.
- StoreRefinement.RunsAgree: both stores are given the same new identifiers and times, and the time SQL fills in is one value.
- The column store's JSON-only mode beyond its split, and table columns that the schema does not list.
- HubModel.NoLiveClientMisses: the time between a client's registration and its connect message is one step, as is the emitting goroutine once it holds the lock; of the unregister case that leaves rooms the runs have the repaired form, since as written it never ends; write errors, ping and authentication are left out.
- Collector.Collector.RecordMetric: how a metric's collection is found in its metadata or path is left out, and keys are pairs instead of joined strings; files and their loss are `Flush` and `Restart`.
- Schema.MigrationsMigrate: definitions agree in type, NOT NULL and default, the three things the code compares; indexes are not migrated. Refusals because of a default whose text is no SQL, and the schema cache, are left out.
- Router.FirstIsLongest: matching is by characters, as in the code, not by path segments; lengths are in characters.
- V8Pool.V8Pool.CompiledScript: running scripts, clearing globals, removing a script and shutting down are left out.
- JWT, bcrypt, e-mail, configuration files, the dashboard and the command line.
