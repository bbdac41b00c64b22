# DynamoDB query builder, modelled in Dafny

This project models `DynamoDbQueryBuilder`, the query builder of a Laravel package that lets
Eloquent-style models live in Amazon DynamoDB. The builder collects `where` conditions in an
ordered PHP array, picks an access path (a Query on a secondary index or a Scan), compiles the
remaining conditions into a DynamoDB FilterExpression with its name and value placeholders,
and shapes the requests of its read and write operations.

The model has six parts. They follow the structure of the PHP class.

- **Condition builder** (`conditions.dfy`, `Builder.QueryBuilder.Where` and its siblings).
  - `$where` is an association list with three kinds of key: a column, a joiner marker
    `conditional_operator_<previous key>`, and the integer key of a nested group.
  - Storing under an existing key keeps its position.
  - A Closure column is given as the sequence of builder calls its body makes.
- **Access-path planner** (`planner.dfy`, `planner_props.dfy`): `addConditionInQuery`,
  `conditionsContainIndexKey`, `checkValidQueryDynamoDbOperator` and the otherwise unused
  `conditionsContainKey`.
- **Expression compiler** (`compiler.dfy`, `compiler_props.dfy`).
  - `getExpression` and `writeQuery` are each given twice: as functions that specify them,
    and as methods with the source's loops and recursion, proved equal to those functions.
  - The by-reference accumulators become an `Acc` record that is passed in and returned.
- **Request shaping and cursor threading** (`builder.dfy`, `builder_props.dfy`).
  - These cover single-page `getAll`, `chunk`, `paginate` and `totalCount`.
  - Each is a method of the `QueryBuilder` class. It updates the stored `lastEvaluatedKey` and
    talks to a scripted client (`transport.dfy`).
  - Each method is proved equal to a run function over the client's replies. The properties
    are proved about those functions.
- **Key and update requests** (`requests.dfy`): `getDynamoDbKey`, and the requests of `find`,
  `delete`, `increment`, `decrement`, `save` and `insert`.
- **Batching** (`requests.dfy`, `Builder.QueryBuilder.DeleteAll`): the key arrays of a hard
  `deleteAll`, chunked into batches of 25.

Collaborators enter as parameters, collected in `Dynamo.Schema`:

- the operator catalog of `ComparisonOperator`: a sequence of symbol/operator pairs with a
  fixed operator datatype;
- the Marshaler's encoding and decoding of one value;
- the table name, the key name, the composite key and the index catalog of the model;
- the soft-delete flag.

Other inputs are handled this way:

- `uniqid()` is an injected supply of tokens, numbered by how many have been drawn.
- `time()` is one value `now`.
- The DynamoDB client is a class that records every call and answers with the next reply of a
  given sequence. Once the replies run out, it raises.

## Model

Rows whose third column starts with "definition" name the function that defines an operation.
Its properties are the lemmas named in that row. Lemmas that only unfold a definition by one
step (the `...Cons` and `...Snoc` lemmas, `WalkOne`, `DigitRoundTrip`, `MinusRoundTrip`) are
proof helpers and have no row.

| member | source | states |
|---|---|---|
| Php.NatString | src/DynamoDbQueryBuilder.php:769 | `(string)$n` of a natural number is a non-empty numeral |
| Php.NatStringRoundTrip | src/DynamoDbQueryBuilder.php:769 | the numeral of a natural number reads back as that number, and has no minus sign |
| Php.IntStringRoundTrip | src/DynamoDbQueryBuilder.php:769 | the numeral `(string)$amount` of any integer reads back as that integer |
| Php.CeilDiv | src/DynamoDbQueryBuilder.php:739 | `ceil($a / $b)` is the integer `q` with `(q-1)*b < a <= q*b` (mirrored for a negative divisor) |
| Php.CeilDivUnique | src/DynamoDbQueryBuilder.php:739 | the ceiling is the only integer with those bounds |
| Php.CeilDivStep | src/DynamoDbQueryBuilder.php:469 | taking off one full chunk lowers the ceiling by one |
| Php.CeilDivOne | src/DynamoDbQueryBuilder.php:469 | between 1 and `size` elements make one chunk |
| Php.ArrayChunkFlatten | src/DynamoDbQueryBuilder.php:469 | the chunks of `array_chunk` concatenate back to the input |
| Php.ArrayChunkCount | src/DynamoDbQueryBuilder.php:469 | `array_chunk` gives ceil(n / size) chunks |
| Php.ArrayChunkAt | src/DynamoDbQueryBuilder.php:469 | chunk c is the slice from c*size to (c+1)*size, cut at the end |
| Php.ArrayChunkSizes | src/DynamoDbQueryBuilder.php:838 | each chunk holds 1 to size elements, all but the last exactly size |
| Php.ArrayChunkIndex | src/DynamoDbQueryBuilder.php:838 | element j of chunk c is element c*size + j of the input |
| Dynamo.Resolve | src/DynamoDbQueryBuilder.php:78-80 | the catalog lookup finds a symbol exactly when the catalog holds it, with the operator paired to it |
| Dynamo.SymbolOf | src/DynamoDbQueryBuilder.php:546-547 | `array_flip` of the mapping: when some catalog pair maps to the operator, its symbol is that of the LAST such pair; when none does, the result is empty (PHP null) |
| Conditions.IndexOf | src/DynamoDbQueryBuilder.php:114-118 | the position found holds the key, and no earlier position does; none means no position does |
| Conditions.Forget | src/DynamoDbQueryBuilder.php:810 | `unset` never lengthens the array |
| Conditions.NextIndex | src/DynamoDbQueryBuilder.php:70 | the integer key `$where[]` uses is above every group key already present |
| Conditions.IndexOfUnique | src/DynamoDbQueryBuilder.php:114-118 | with unique keys, each entry is the one found under its own key |
| Conditions.PutSpec | src/DynamoDbQueryBuilder.php:114-118 | storing finds the entry under its key, leaves other keys alone, keeps an existing key's position, appends a new key, keeps keys unique |
| Conditions.ForgetKeeps | src/DynamoDbQueryBuilder.php:810 | every entry left by `unset` came from the array and has another key |
| Conditions.ForgetSpec | src/DynamoDbQueryBuilder.php:810 | after `unset` the key is gone and every other key reads as before |
| Conditions.ForgetUnique | src/DynamoDbQueryBuilder.php:810 | `unset` keeps the keys unique |
| Conditions.ForgetIdempotent | src/DynamoDbQueryBuilder.php:808-813 | removing a key twice is removing it once |
| Conditions.ForgetWellFormed | src/DynamoDbQueryBuilder.php:808-813 | `unset` keeps keys unique at every nesting level |
| Conditions.PutWellFormed | src/DynamoDbQueryBuilder.php:114-118 | storing a well-formed entry keeps keys unique at every level |
| Conditions.AppendGroupWellFormed | src/DynamoDbQueryBuilder.php:70 | appending a group under the next integer key keeps keys unique |
| Conditions.ShorthandTwoArgs | src/DynamoDbQueryBuilder.php:58-60 | with two arguments, the second is the value of an equality |
| Conditions.ShorthandOperator | src/DynamoDbQueryBuilder.php:78-80 | otherwise a known operator keeps its value, and an unknown one becomes the value of an equality |
| Conditions.ValueList | src/DynamoDbQueryBuilder.php:89-112 | definition of the stored value list; its properties are BetweenUnwrapsList and InListNeverEmpty below |
| Conditions.BetweenUnwrapsList | src/DynamoDbQueryBuilder.php:105-111 | between stores the elements of the marshaled list for every value the Marshaler turns into an L, a PHP array included, not the list as one value |
| Conditions.InListNeverEmpty | src/DynamoDbQueryBuilder.php:89-101 | an in/not_in condition always stores at least one value: one per array element, or the NULL_DEFINE_IS_NULL sentinel for an empty array |
| Conditions.AddNamed | src/DynamoDbQueryBuilder.php:55-118 | definition of `where` on a column name; its property is AddNamedSpec |
| Conditions.AddNamedSpec | src/DynamoDbQueryBuilder.php:85-118 | a where on a column stores exactly one condition under it, with the catalog's operator and the joiner, replacing an earlier one in place, and changes no other key; a Closure value raises NotSupported and changes nothing |
| Conditions.AddWhere | src/DynamoDbQueryBuilder.php:42-121 | definition of every `where` call; its properties are PairsFirstOnly, EmptyPairsRaise, ClosureMarks, ClosureAppendsGroup and AddWhereWellFormed |
| Conditions.PairsFirstOnly | src/DynamoDbQueryBuilder.php:49-53 | an array column applies only its first pair, as an AND equality, whatever the other arguments |
| Conditions.EmptyPairsRaise | src/DynamoDbQueryBuilder.php:49-53 | an empty array column raises and leaves the conditions alone |
| Conditions.OrWhereSpec | src/DynamoDbQueryBuilder.php:123-126 | orWhere is where with OR and four arguments, so the two-argument shorthand never applies |
| Conditions.DefaultWhereSpec | src/DynamoDbModel.php:217-230 | a fresh builder holds no condition, or only deleted_at = null on a soft-deleting model |
| Conditions.LookupSnoc | src/DynamoDbQueryBuilder.php:70 | after an append, a lookup finds an earlier entry first, and the new one only under a new key |
| Conditions.ClosureMarks | src/DynamoDbQueryBuilder.php:65-73 | a Closure records the joiner under `conditional_operator_<last key>`, passes on the body's exception, and changes no other named key |
| Conditions.ClosureAppendsGroup | src/DynamoDbQueryBuilder.php:65-73 | a completed Closure appends its conditions, without deleted_at, as one group under an integer key above every other |
| Conditions.AddWhereWellFormed | src/DynamoDbQueryBuilder.php:42-121 | every where call keeps the keys unique at every nesting level |
| Conditions.ApplyCallWellFormed | src/DynamoDbQueryBuilder.php:42-126 | every builder call in a Closure body keeps the keys unique |
| Conditions.RunCallsWellFormed | src/DynamoDbQueryBuilder.php:65-73 | a whole Closure body keeps the keys unique |
| Conditions.DefaultWhereWellFormed | src/DynamoDbModel.php:225-227 | the starting conditions have unique keys |
| Conditions.OnlyThenWithTrashed | src/DynamoDbQueryBuilder.php:808-820 | onlyTrashed then withTrashed leaves no deleted_at condition and every other condition as it was |
| Conditions.WithTrashedIdempotent | src/DynamoDbQueryBuilder.php:808-813 | withTrashed twice is withTrashed once |
| Compiler.Expr | src/DynamoDbQueryBuilder.php:462-553 | definition of getExpression's text and accumulators per operator; its properties are SingleOperatorCodegen, the In* lemmas, ExprTruthy and ExprAcc |
| Compiler.Write | src/DynamoDbQueryBuilder.php:437-460 | definition of writeQuery over a condition tree; its properties are LevelOfConditions, FirstJoinerIgnored, the Group lemmas and WriteAcc |
| Compiler.Clauses | src/DynamoDbQueryBuilder.php:469-479 | one clause per chunk |
| Compiler.DrawPlaceholders | src/DynamoDbQueryBuilder.php:484-488 | the inner loop draws one token per value, makes their placeholders and registers each value under its own |
| Compiler.RegisterAppend | src/DynamoDbQueryBuilder.php:469-479 | registering two runs in turn is registering their concatenation |
| Compiler.PlaceholdersAppend | src/DynamoDbQueryBuilder.php:469-479 | the placeholders of two consecutive runs of tokens concatenate |
| Compiler.ChunkPositions | src/DynamoDbQueryBuilder.php:469 | chunk c of the values and chunk c of their placeholders cover the same positions |
| Compiler.ChunkStep | src/DynamoDbQueryBuilder.php:469-479 | one pass of the chunk loop adds chunk c's clause and registrations, the last pass reaching the end |
| Compiler.ChunkRegisters | src/DynamoDbQueryBuilder.php:472-475 | registering one chunk after the ones before is registering the prefix up to its end |
| Compiler.ChunkedClauses | src/DynamoDbQueryBuilder.php:469-479 | the chunk loop builds one clause per chunk of placeholders, registers every value under its placeholder and draws one token per value |
| Compiler.InExpression | src/DynamoDbQueryBuilder.php:466-492 | the in branch, and the not_in branch at 508-535, give the text and maps the specification function gives |
| Compiler.GetExpression | src/DynamoDbQueryBuilder.php:462-553 | the method with the operator switch computes the specified expression and accumulators |
| Compiler.WriteQuery | src/DynamoDbQueryBuilder.php:437-460 | the recursive loop computes the specified filter expression and accumulators |
| CompilerProps.PlaceholdersDistinct | src/DynamoDbQueryBuilder.php:473 | distinct uniqid() tokens give pairwise distinct placeholders |
| CompilerProps.RegisterKeys | src/DynamoDbQueryBuilder.php:473-475 | registration adds exactly the placeholders to the value keys |
| CompilerProps.RegisterValues | src/DynamoDbQueryBuilder.php:473-475 | with distinct placeholders each one holds its own value |
| CompilerProps.RegisterOthers | src/DynamoDbQueryBuilder.php:473-475 | registration leaves every other value key as it was |
| CompilerProps.InSingleClause | src/DynamoDbQueryBuilder.php:481-491 | at most 100 values: one clause with one distinct placeholder per value, each value registered under its own, other values kept, the name registered |
| CompilerProps.InChunkShape | src/DynamoDbQueryBuilder.php:466-469 | above 100 values: ceil(n/99) chunks of 1 to 99 placeholders, all but the last 99, concatenating to the whole list |
| CompilerProps.InChunkedText | src/DynamoDbQueryBuilder.php:466-480 | above 100 values: one clause per chunk, joined by OR for in and AND for not_in, wrapped in parentheses, one token per value |
| CompilerProps.InChunkedValues | src/DynamoDbQueryBuilder.php:508-535 | above 100 values: value c*99+j is registered under placeholder j of chunk c |
| CompilerProps.InChunked250 | src/DynamoDbQueryBuilder.php:467-469 | 250 values give three clauses of 99, 99 and 52 |
| CompilerProps.SingleOperatorCodegen | src/DynamoDbQueryBuilder.php:493-549 | contains, begins_with, ne and default: one value `:k` holding the first value and the name `#k`; the attribute_exists pair: the name only; each with its exact text |
| CompilerProps.BetweenUsesFirstValue | src/DynamoDbQueryBuilder.php:544-549 | between compiles to `#k <symbol> :k` with only the first value |
| CompilerProps.ExprTruthy | src/DynamoDbQueryBuilder.php:462-553 | no condition compiles to a falsy string |
| CompilerProps.WalkSameMarkers | src/DynamoDbQueryBuilder.php:455 | the loop reads its scope only for joiner markers |
| CompilerProps.FirstJoinerIgnored | src/DynamoDbQueryBuilder.php:443-450 | the first condition's joiner never reaches the output |
| CompilerProps.LevelOfConditions | src/DynamoDbQueryBuilder.php:437-450 | any number of conditions on one level render in insertion order: the first one's text, then each later one joined by its own joiner; the first joiner is not used |
| CompilerProps.TwoConditions | src/DynamoDbQueryBuilder.php:443-450 | two conditions render in insertion order, joined by the second one's joiner (a corollary of LevelOfConditions) |
| CompilerProps.GroupStep | src/DynamoDbQueryBuilder.php:452-457 | after a falsy accumulator a nested group renders as `<joiner> (<its conditions>)` |
| CompilerProps.GroupAfterCondition | src/DynamoDbQueryBuilder.php:452-457 | a group after a condition is joined by the joiner recorded under that column's marker |
| CompilerProps.LeadingGroupJoiner | src/DynamoDbQueryBuilder.php:440-459 | a group stored first renders with a leading ` <joiner> (` |
| CompilerProps.FirstClauseIsClosure | src/DynamoDbQueryBuilder.php:65-73 | a Closure as the first where renders as ` <boolean> (<its conditions>)` |
| CompilerProps.SameColumnTwoLevels | src/DynamoDbQueryBuilder.php:547-548 | the same column on two levels shares `:k`, and the inner value is the one kept |
| CompilerProps.ExprAcc | src/DynamoDbQueryBuilder.php:462-553 | one condition registers its name, removes nothing and draws one token per in/not_in value |
| CompilerProps.WalkAcc | src/DynamoDbQueryBuilder.php:442-458 | the loop registers every column's name at every level, removes nothing and draws one token per in/not_in value |
| CompilerProps.StepAcc | src/DynamoDbQueryBuilder.php:443-457 | one step does the same for its entry |
| CompilerProps.WriteAcc | src/DynamoDbQueryBuilder.php:437-460 | writeQuery does the same for a whole tree |
| CompilerProps.NamesOfEveryColumn | src/DynamoDbQueryBuilder.php:420-431 | compiling from empty maps gives `#c -> c` for every column of the tree |
| Planner.CountIn | src/DynamoDbQueryBuilder.php:625 | the source's intersection count is at most the number of conditions |
| Planner.NamedIndex | src/DynamoDbQueryBuilder.php:621-623 | the named index is a catalog entry of that name; none means no entry has it |
| Planner.FirstCovered | src/DynamoDbQueryBuilder.php:624-639 | the index found is the first in catalog order whose keys are covered; none means none is |
| Planner.ContainIndexKey | src/DynamoDbQueryBuilder.php:616-642 | nothing for no conditions; a named index in the catalog is chosen unconditionally; otherwise an index is found exactly when one is covered, and then the first covered one |
| Planner.KeyEntry | src/DynamoDbQueryBuilder.php:401-410 | a key condition exists exactly when the column has a condition, and is that condition without its joiner |
| Planner.WithKeyConditions | src/DynamoDbQueryBuilder.php:397-415 | IndexName is set; exactly the eligible hash and range conditions are added; ScanIndexForward is set only for an added range condition with an order, false for desc; nothing else changes |
| Planner.WithFilter | src/DynamoDbQueryBuilder.php:420-431 | FilterExpression and names only for a truthy filter, values only for a non-empty map, nothing else changes |
| Planner.Plan | src/DynamoDbQueryBuilder.php:389-435 | no conditions: a Scan with the request untouched; otherwise only the condition fields change |
| Planner.AddConditionInQuery | src/DynamoDbQueryBuilder.php:389-435 | the method filling the request by steps computes the specified plan |
| Planner.ConditionsContainKey | src/DynamoDbQueryBuilder.php:579-608 | a key row exactly when the conditions cover every primary key attribute, holding each key's first value unmarshaled |
| PlannerProps.CountInSet | src/DynamoDbQueryBuilder.php:625 | the count is the size of the intersection of the where keys and the index keys |
| PlannerProps.DistinctCard | src/DynamoDbQueryBuilder.php:625 | distinct index keys form a set of that size |
| PlannerProps.CoversMeaning | src/DynamoDbQueryBuilder.php:624-627 | the count test passes exactly when every key attribute is the key of some condition |
| PlannerProps.CoversConditions | src/DynamoDbQueryBuilder.php:624-627 | every key with a condition passes the test, and a passing test means every key is a where key |
| PlannerProps.FilterScopeSpec | src/DynamoDbQueryBuilder.php:417 | index key attributes leave the filter set, every other key reads as before |
| PlannerProps.PlanSpec | src/DynamoDbQueryBuilder.php:389-435 | Query exactly when an index is chosen, its IndexName, exactly the eligible key conditions, and the compiled filter's fields and tokens |
| PlannerProps.NoScanFallback | src/DynamoDbQueryBuilder.php:398-417 | an index with no eligible key condition still gives a Query with no key conditions, and its hash condition is not filtered either |
| PlannerProps.ScanIndexForwardSpec | src/DynamoDbQueryBuilder.php:412-414 | ScanIndexForward only for a chosen index with an added range condition and an order; false exactly for desc |
| PlannerProps.DescendingAnyCase | src/DynamoDbQueryBuilder.php:413 | DESC and Desc read as descending, ASC does not |
| Requests.MergeKeys | src/DynamoDbQueryBuilder.php:650-654 | the merged key holds exactly the listed attributes, each marshaled |
| Requests.DynamoDbKey | src/DynamoDbQueryBuilder.php:644-675 | the key holds exactly the primary key attributes, each with its marshaled value |
| Requests.SetFields | src/DynamoDbModel.php:256-269 | setting pairs in turn gives each attribute the last value a pair names, else its old value |
| Requests.FindScalarKey | src/DynamoDbQueryBuilder.php:151-152 | find by a scalar reads the item whose key holds it |
| Requests.FindFieldsKey | src/DynamoDbQueryBuilder.php:151-152 | find by an array reads the item whose key attributes hold the values the array gives last |
| Requests.FindRequest | src/DynamoDbQueryBuilder.php:154-162 | a consistent read of the key, AttributesToGet exactly when columns are given |
| Requests.FindResult | src/DynamoDbQueryBuilder.php:164-179 | null for no item, an empty item or a trashed item unless withTrashed; otherwise the unmarshaled attributes, cut to the columns |
| Requests.DeleteByKey | src/DynamoDbQueryBuilder.php:202-210 | deletes the model's key in its table |
| Requests.IncrementRequest | src/DynamoDbQueryBuilder.php:755-772 | an ADD of `:num` to the column, whose N value reads back as the amount |
| Requests.DecrementRequest | src/DynamoDbQueryBuilder.php:788-800 | the same ADD, whose N value reads back as the negated amount |
| Requests.DecrementIsNegatedIncrement | src/DynamoDbQueryBuilder.php:755-806 | decrementing by n is incrementing by -n |
| Requests.SaveAttributes | src/DynamoDbQueryBuilder.php:220-228 | whatever the option, the attributes less old_updated_at |
| Requests.SaveRequest | src/DynamoDbQueryBuilder.php:217-241 | the put item has exactly the attribute names less old_updated_at |
| Requests.InsertItem | src/DynamoDbQueryBuilder.php:259-265 | definition of the `array_merge` of id, marshaled attributes and timestamps; its property is InsertItemSpec |
| Requests.InsertItemSpec | src/DynamoDbQueryBuilder.php:261-265 | the item has the keys of id, attributes and timestamps; timestamps beat attributes, attributes beat the id |
| Requests.InsertRequests | src/DynamoDbQueryBuilder.php:256-272 | one put request per inserted value |
| Requests.InsertRequestsSnoc | src/DynamoDbQueryBuilder.php:256-272 | one more value adds one item at the end, from the model filled once more |
| Requests.InsertCarriesOver | src/DynamoDbQueryBuilder.php:257 | an attribute of one row missing from the next is written into the next item too |
| Requests.PairIndex | src/DynamoDbQueryBuilder.php:834 | the position found is the first holding the key |
| Requests.PutPairSpec | src/DynamoDbQueryBuilder.php:834 | keyed assignment sets one key, keeps the rest, keeps keys unique, grows only for a new key |
| Requests.PairIndexFirst | src/DynamoDbQueryBuilder.php:834 | the first position holding a key is the one found |
| Requests.LastWith | src/DynamoDbQueryBuilder.php:834 | the last row with a range value, or none |
| Requests.PluckKeyed | src/DynamoDbQueryBuilder.php:834 | definition of `pluck($hash, $range)` with PHP key coercion; its properties are PluckKeyedSpec, PluckKeyedCollapses and PluckNumeralCollapses |
| Requests.ArrayKeyIdempotent | src/DynamoDbQueryBuilder.php:834 | PHP array-key coercion applied twice is applied once |
| Requests.NumeralKey | src/DynamoDbQueryBuilder.php:834 | the decimal numeral of a 64-bit integer becomes that integer as an array key, the same key the integer gives |
| Requests.PluckKeyedSpec | src/DynamoDbQueryBuilder.php:834 | plucking by range gives unique array keys, no more than the rows, each holding the hash of the last row whose range value coerces to that key |
| Requests.PluckKeyedCollapses | src/DynamoDbQueryBuilder.php:834 | two rows whose range values coerce to the same array key give one key |
| Requests.PluckNumeralCollapses | src/DynamoDbQueryBuilder.php:834-841 | range values "7" and 7 give one key, the integer 7, which is marshaled as a number |
| Requests.ChunkBatches | src/DynamoDbQueryBuilder.php:838-847 | definition of the batches of deleteAll; its properties are ChunkBatchesSpec, ChunkBatchesAt and DeleteFiftySeven |
| Requests.ChunkBatchesSpec | src/DynamoDbQueryBuilder.php:838 | ceil(n/25) batches against the table, each of 25 keys but the last, none empty |
| Requests.ChunkBatchesAt | src/DynamoDbQueryBuilder.php:838-847 | request j of batch c deletes key c*25 + j |
| Requests.DeleteKeysById | src/DynamoDbQueryBuilder.php:831-841 | without a composite key each row gives `['id' => its id]`, whatever the key name |
| Requests.DeleteFiftySeven | src/DynamoDbQueryBuilder.php:822-865 | 57 rows are deleted in batches of 25, 25 and 7 |
| Transport.Rest | src/DynamoDbQueryBuilder.php:369-371 | a call uses up one reply, none once they have run out |
| Transport.Client.constructor | src/DynamoDbQueryBuilder.php:369-371 | a client with the given replies and no calls made |
| Transport.Client.Send | src/DynamoDbQueryBuilder.php:369-371 | a call is recorded, answered with the next reply, and that reply is used up |
| Builder.PlanKeepsPaging | src/DynamoDbQueryBuilder.php:389-435 | the planner leaves table, Select, Limit, projection and start key alone |
| Builder.PageStep | src/DynamoDbQueryBuilder.php:337-375 | rows come back only when a reply was there |
| Builder.ChunkRun | src/DynamoDbQueryBuilder.php:134-145 | definition of a chunk run over the replies; its properties are ChunkCallbacks, ChunkReplies and ChunkRequests |
| Builder.PageLoop | src/DynamoDbQueryBuilder.php:719-735 | definition of paginate's loop over the replies; its properties are LoopShape, LoopBudget, LoopBelowTotal and LoopEnds |
| Builder.PaginateRun | src/DynamoDbQueryBuilder.php:709-745 | definition of a whole paginate call; its properties are PaginateNoPages and PaginateResult |
| Builder.ChunkAfterStep | src/DynamoDbQueryBuilder.php:136-144 | one turn of chunk's loop either ends the run or leaves the rest of it to come |
| Builder.LoopAfterStep | src/DynamoDbQueryBuilder.php:721-735 | one turn of paginate's loop either ends the loop or leaves the rest of it to come |
| Builder.LoopAfterNext | src/DynamoDbQueryBuilder.php:726-734 | a turn that read a page with a cursor leaves the rest of the loop from the new state |
| Builder.Model.constructor | src/DynamoDbModel.php:217-230 | a model with the given attributes |
| Builder.QueryBuilder.constructor | src/DynamoDbModel.php:217-230 | a fresh builder with the default conditions, no order, index or cursor |
| Builder.QueryBuilder.Where | src/DynamoDbQueryBuilder.php:42-121 | the conditions become the specified result and the exception is returned; nothing else changes |
| Builder.QueryBuilder.OrWhere | src/DynamoDbQueryBuilder.php:123-126 | where with OR and four arguments |
| Builder.QueryBuilder.WithTrashed | src/DynamoDbQueryBuilder.php:808-813 | the deleted_at condition is dropped, nothing else changes |
| Builder.QueryBuilder.OnlyTrashed | src/DynamoDbQueryBuilder.php:815-820 | where('deleted_at', '>', 1) |
| Builder.QueryBuilder.OrderBy | src/DynamoDbQueryBuilder.php:300-305 | only the order changes |
| Builder.QueryBuilder.UseIndex | src/DynamoDbQueryBuilder.php:307-312 | only the index name changes |
| Builder.QueryBuilder.GetAll | src/DynamoDbQueryBuilder.php:337-387 | one call, the rows, stored cursor and tokens the page function gives; one reply used |
| Builder.QueryBuilder.Chunk | src/DynamoDbQueryBuilder.php:134-145 | the pages, calls, cursor and tokens the chunk run over the replies gives |
| Builder.QueryBuilder.ChunkTurn | src/DynamoDbQueryBuilder.php:136-144 | one loop turn keeps the run invariant and uses up a reply when the loop goes on |
| Builder.QueryBuilder.TotalCount | src/DynamoDbQueryBuilder.php:314-335 | one COUNT call, and the count the specified function gives |
| Builder.QueryBuilder.Paginate | src/DynamoDbQueryBuilder.php:709-745 | the result, calls, cursor and tokens of the specified pagination run |
| Builder.QueryBuilder.ReadPages | src/DynamoDbQueryBuilder.php:719-735 | the merged items, last cursor and calls of the specified page loop |
| Builder.QueryBuilder.PageTurn | src/DynamoDbQueryBuilder.php:721-735 | one loop turn keeps the loop invariant and uses up a reply when the loop goes on |
| Builder.QueryBuilder.Find | src/DynamoDbQueryBuilder.php:147-188 | one consistent read of the id's key; the answer is whether a row was found, and the model takes the id and what was read |
| Builder.QueryBuilder.Delete | src/DynamoDbQueryBuilder.php:202-215 | one deleteItem of the model's key; the answer is whether the status was 200 |
| Builder.QueryBuilder.Increment | src/DynamoDbQueryBuilder.php:755-778 | one updateItem adding the amount; the answer is whether the status was 200 |
| Builder.QueryBuilder.Decrement | src/DynamoDbQueryBuilder.php:788-806 | one updateItem adding the negated amount; the answer is whether the status was 200 |
| Builder.QueryBuilder.Save | src/DynamoDbQueryBuilder.php:217-241 | one putItem of the attributes less old_updated_at; true exactly when it did not raise |
| Builder.QueryBuilder.Insert | src/DynamoDbQueryBuilder.php:243-288 | the model is filled with every value, one batch carries every item, true exactly when it did not raise |
| Builder.QueryBuilder.FillRequests | src/DynamoDbQueryBuilder.php:256-272 | the loop fills the model value by value and builds the specified put requests, drawing one token per item with ids |
| Builder.QueryBuilder.DeleteAll | src/DynamoDbQueryBuilder.php:822-865 | hard delete: every batch is sent in order even after a failure, true exactly when rows matched; soft delete: false |
| Builder.QueryBuilder.DeleteBatchOf | src/DynamoDbQueryBuilder.php:839-847 | the inner loop builds the specified batch of one chunk |
| BuilderProps.GetAllSpec | src/DynamoDbQueryBuilder.php:337-359 | the read targets the table, Limit only when limit > -1, projection only for columns, start key only when the cursor in force is non-empty |
| BuilderProps.GetAllReply | src/DynamoDbQueryBuilder.php:347-375 | a failed call raises after the argument was stored; an answer's rows are returned and its LastEvaluatedKey, or null, stored |
| BuilderProps.TotalCountSpec | src/DynamoDbQueryBuilder.php:314-335 | one COUNT read with TOTAL capacity, no Limit and no cursor; the reply's Count, 0 when absent |
| BuilderProps.ChunkCallbacks | src/DynamoDbQueryBuilder.php:134-145 | at least one request; one callback per request that did not raise; at least one callback when none raised |
| BuilderProps.ChunkReplies | src/DynamoDbQueryBuilder.php:134-145 | each callback gets one answer's rows, the run stops at the first answer without a cursor, and a raise ends it |
| BuilderProps.ChunkRequests | src/DynamoDbQueryBuilder.php:134-145 | every request reads the table with the size as Limit; the first starts from the stored cursor, each later one from the previous reply's cursor |
| BuilderProps.LoopShape | src/DynamoDbQueryBuilder.php:721-735 | the loop merges the answered rows in order, one size per request, and a raise ends it |
| BuilderProps.LoopBudget | src/DynamoDbQueryBuilder.php:721-735 | with budget at most the total, each Limit is the budget left, which falls by exactly each page's count |
| BuilderProps.LoopBelowTotal | src/DynamoDbQueryBuilder.php:722 | with a total below the budget, one request without a Limit |
| BuilderProps.LoopEnds | src/DynamoDbQueryBuilder.php:721-735 | the loop ends only on a spent budget, no total, an empty cursor or a raise |
| BuilderProps.PaginateNoPages | src/DynamoDbQueryBuilder.php:709-745 | paginate starts with totalCount's call; a zero count or a limit of at most 0 reads no page, and a limit of 0 raises |
| BuilderProps.PaginateResult | src/DynamoDbQueryBuilder.php:737-744 | the result's total is the count, totalPage is ceil(total/limit), the items and encoded cursor are the loop's |

## Left out

- `getIterator` auto-paging (`get`, `all`, `first`, `count`, `getIterator`): the paging is done
  inside the AWS SDK, which is not part of this model. Only `useIterator = false` of `getAll`
  is modelled.
- Building model instances from rows (`newInstance`, `setUnfillableAttributes`, the
  Collection): each page is returned as the sequence of its unmarshaled attribute arrays. A
  Collection merge is a sequence concatenation.
- The per-row soft delete of `deleteAll`: each model's `delete()` is Eloquent code and is not
  part of this model. `DeleteAll` takes the rows `get()` would return as a parameter, sends
  nothing on a soft-deleting model, and returns false as the source does.
- Logging and `config('app.debug')`: they have no effect on the requests or results.
- DynamoDbModel, the service provider, the client service and ModelTrait: only the facts the
  builder reads are modelled, as `Schema` fields. `fill` is a map merge, and mass-assignment
  guarding is not modelled.
- `json_encode` / `json_decode` of the cursor: paginate takes the token already decoded, and
  `encode` is a parameter.
- The status code of a response is a field of the reply. `StatusOk` reads it.
- `Builder.QueryBuilder.Increment`: the `is_numeric` guard is not modelled, because the amount
  is an `int`.
- PHP array key coercions in `$where` are not modelled: numeric-string column names, a column
  actually named `conditional_operator_x`, and dotted names read by `array_get`. Keys are typed
  as column, marker or group index.
- `Requests.PluckKeyed`: the range values that `pluck` turns into array keys are coerced as PHP
  does for null, booleans, integers and integer numerals (`Requests.ArrayKey`). Two cases are
  not modelled. A list or object range value raises "Illegal offset type" in PHP, but here it is
  kept as its own key. Floats have no `Value` case, so their truncation is absent too. This
  applies to `Builder.QueryBuilder.DeleteAll` as well.
- The operator catalog, key eligibility and the Marshaler are parameters. Eligibility is a
  fixed operator set: EQ on the hash key; EQ, LT, LE, GT, GE, BEGINS_WITH and BETWEEN on the
  range key. `ComparisonOperator` is not part of this model.
- `Builder.QueryBuilder.Chunk`: the source loops for as long as the store keeps returning
  cursors. The model reads a finite sequence of replies, and a call after the last reply
  raises. A run therefore always ends.
- `Builder.QueryBuilder.Chunk`: the callback is not called. The pages it would receive are
  returned in order, with a flag saying that a call raised after them.
- `Builder.QueryBuilder.Paginate`: `ceil` of the float quotient is integer ceiling division.
  A limit of 0 is the division-by-zero error, raised once the pages are read.
- `Builder.QueryBuilder.Paginate`: its loop adds a page's rows and lowers the budget only when
  the page is non-empty, as the source does. Adding nothing would be the same.
- `Builder.QueryBuilder.Insert`: `time()` is read once, as `now`, for both timestamp fields.
  The source calls it twice, and the two calls can differ across a second boundary.
- `Builder.QueryBuilder.Save`: the restoration of `updated_at` from `old_updated_at` is modelled
  as written, in `Requests.SaveAttributes` and in `Save`. The source removes `old_updated_at`
  just before testing for it, so that branch never applies, and `SaveAttributes` proves it.
- The loops of `chunk`, `paginate`, `insert` and `deleteAll` are methods of the class. The
  body of a loop is a method of its own where that keeps each proof small: `ChunkTurn`,
  `PageTurn`, `FillRequests` and `DeleteBatchOf`.
- In/not_in chunking starts above 100 values, as the code tests (more than 100), and each
  chunk holds 99 values.
- Exceptions other than those the source names are not modelled: a DynamoDbException is a
  reply `Failure`.
- `Conditions.ValueList`: a `between` whose value the Marshaler does not turn into an L (say
  `where('x', 'between', 5)`) reads an undefined `['L']` offset in the source. PHP raises a
  notice there, which Laravel turns into an exception. The model does not raise: it stores an
  empty value list.
