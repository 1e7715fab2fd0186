# Auger: a model of SQL over MongoDB

Auger answers PostgreSQL clients from MongoDB. It infers a relational schema from sampled
documents, turns SQL predicates into `$match` filters, splits a collection into `_id` ranges,
and decodes the documents that come back into Arrow columns. This project models that core in
Dafny and proves that the pieces keep their meaning, one by one and put together.

`dafny verify dfyconfig.toml` checks everything.

## How the model is laid out

| file | models |
|---|---|
| `BsonModel`, `Arrow`, `Text`, `Wrappers` | BSON values, Arrow types and field metadata, dotted paths, text order, trimming, numerals |
| `Shapes`, `ShapeLaws` | inferred shapes, `unify`, and its algebra |
| `ShapeGrouping`, `ShapeJoin`, `ShapeFold` | exactly when `unify` associates, when it is a least upper bound, and when the order of many merges matters |
| `Sampler`, `SamplerLaws`, `ArrowSchema` | the stateful sampler, what a run of it knows, and the depth-bounded schema |
| `SchemaOrder`, `MixedColumns` | exactly when the order of the sample changes the schema, and what its mixed columns are |
| `Convert`, `Columnar`, `Exec` | decoding one value, the columnar builder, batching |
| `NoLoss`, `DottedKeys`, `Conversion` | which values decoding keeps, which keys it never reads, which batches convert |
| `Decimal`, `Base64` | checked decimal parsing and the base64 encoder with a reference decoder |
| `Sql`, `MongoFilter` | three-valued SQL predicates; two-valued filters in which a missing field counts as null |
| `Like`, `Pushdown`, `PushdownLaws` | the translation, and why it is faithful |
| `PushdownFindings`, `PushdownNegation`, `ColumnAtoms`, `ColumnFindings`, `NullTests`, `SampleFindings` | where it is not: inputs, exact conditions, and inferred schemas that meet them |
| `Partition`, `Projection`, `Scan`, `ScanFindings` | `_id` ranges, `$project`, the aggregation pipeline and what a scan returns |
| `Execute` | the scan as it runs: cursors, batches and the rows they hold |
| `SampleConforms`, `EndToEnd` | sampled documents conform to their inferred schema; infer, cache, restart, scan |
| `JsonText`, `JsonParser` | the JSON printer and a reader of RFC 8259 |
| `Statements`, `Compat` | the statement splitter and the `pg_catalog` qualifier |
| `Store` | the persisted schema cache |

Code that loops or updates state is a method or a class (`Sampling.Sampler`, `Exec.Cursor`,
`Store.CatalogStore`), proved against a function; the theorems are about the functions.
`Execute.RunScan` runs the plans of a scan through those methods and returns the rows of
`Scan.ScanRows`, which `Scan.ScanIsCompleteIff` compares with the rows SQL selects.

Five decisions shape the statements:

* A document is a map from keys to values, and SQL NULL is what is null, undefined or missing.
* Mongo compares within one type bracket: numbers together, texts and symbols together, and so on.
  A sort goes by bracket first; sampled ids come sorted so, of one bracket or several.
* Text is a sequence of Unicode scalar values; their order is the order of the UTF-8 bytes.
  The identifier rewriter works on bytes, but no byte of a non-ASCII character is a letter, a
  digit, a quote, a dot or an underscore, so working on characters is the same.
* What other libraries render (doubles, dates, extended JSON) is the parameter `Rendering`;
  every theorem holds for any choice of it.
* The fragment of predicates (`InScope`, `NullSafe` in `PushdownLaws`) is one the caller can test
  on the predicate and the schema: unmixed scalar columns, literals faithful to the column,
  `LIKE` on string columns, and `NOT` only over exact predicates whose FALSE needs all columns.

## What the code does not do

The proofs found places where the code misses its own documentation. The model follows the code;
for each there is the condition under which it fails, for all inputs, and an input that shows it.
`SampleFindings` meets them under schemas inferred from the very documents they happen to.

* `unify` is called associative (src/catalog/infer.rs:157). It is if and only if nowhere, under
  arrays and common keys, two neighbours degrade to JSON beside an array: `AssociatesIff`.
  It is the least upper bound if and only if it brings no JSON that neither operand held;
  elsewhere there is no such bound: `LeastUpperBoundIff`.
* So the order of a sample can decide between text and a list: `TypeDependsOnOrder`. All orders
  infer the same field if and only if what the documents hold there is settled (`Settled`): where
  an array was sampled no two other values degrade to JSON, unless one is JSON already, and so on
  inside arrays and documents: `FieldIgnoresOrderIff`, and for the whole schema at any depth limit
  `SchemaIgnoresOrderIff`. The mixed flag never depends on the order: `MixedIffClash`.
* The frequencies of nested fields vary all the same: two documents merge without adding their
  counters if and only if they are equal and hold the key: `CountersAddIff`,
  `NestedCountersDependOnOrder`.
* `NOT` guards every column of its operand (src/mongo/pushdown.rs:64-73). Over exact operands of the
  fragment a row is lost exactly where the operand is FALSE while one of those columns is null:
  `NegationIsFaithfulIff`. With dropped halves, also where the operand is FALSE and what was kept of
  it is TRUE: `PartialNegationIsFaithfulIff`, `DroppedRightHalfLosesIff`, `DroppedLeftHalfLosesIff`.
  Over any operand at all, mixed columns and further `NOT`s included, it is lost where the operand
  is FALSE and its filter accepts or a column is null: `AnyNegationIff`.
* Comparisons, `BETWEEN` and `IN` on a mixed column, nested or not, are sent although inexact. A row
  is lost exactly where the value is no text, its rendering satisfies the predicate, and that is
  neither `<>` nor `NOT IN`; under `NOT` exactly where the value is no text, its rendering fails the
  operand, and that is `<>` or `NOT IN`, as in `NOT (v <> '7')` on the number 7: `TextAtomIff`,
  `NegatedTextAtomIff`, and per column `MixedColumnNeverLosesIff`.
* `LIKE` and `NOT LIKE` claim to be exact on every text column. They disagree with SQL exactly on
  values that are no text but whose rendering matches: `LikeAgreesIff`, and per column
  `LikeColumnAgreesIff`.
* A column of dates may hold BSON timestamps and still count as unmixed. Comparisons, `BETWEEN` and
  `IN` lose those that SQL selects; `<>` and `NOT IN` add those it rejects: `TimestampInDateColumnIff`.
  Which other literals compare faithfully is `LiteralAgreesIffFaithful`.
* `IS NULL` and `IS NOT NULL` test what is stored, SQL what was decoded (src/mongo/pushdown.rs:75-84).
  They differ exactly on values the column's type cannot read: `NullTestIff`. On unmixed columns of
  conforming documents those are the decimals that do not parse: `ConformingNullTestIff`,
  `NullTestLosesSampledDecimal`.
* `supports_filters_pushdown` (src/mongo/provider.rs:73-89) does not read `pushdown.filters`. With
  that switch off a filter reported exact is applied by nobody: no exact filter, no harm
  (`NoExactFilterIsFaithful`); otherwise any document that fails just exact ones is returned
  (`FailedExactFilterAddsRow`, `UnpushedScanAlwaysFaithfulIff`).
* An `_id` range sees only the bracket of its bounds. A document is in the one range at its place
  among the cut points, and only if both bounds share its bracket: `RangeAcceptsIff`. Otherwise a
  partitioned scan loses it, as it does of integers and texts together: `MixedIdsAreLost`,
  `PartitionsReach`, `ScanIsCompleteIff`.
* `_id` is taken to be safe as non-nullable (src/catalog/infer.rs:339-346). An `_id` of a kind that was not
  sampled decodes to NULL and fails its whole batch; besides lists that are too long nothing else
  can: `InferredConvertsIff`, `UnsampledIdFailsBatch`.
* A root key with a dot gets a column that never reads it: `ColumnReadsItsKeyIff`, `DottedKeyIsNeverRead`.
  A nested one is decoded, but filters on it read elsewhere: `ChildReadsItsKeyIff`, `DottedChildLosesRow`.
* A numeral without digits parses as the decimal zero wherever its shift is within 38 places:
  `NoDigitsIsZero`. A fraction of more than 2^31 digits wraps the shift: `NumeralParsesIff`.
* `$` in the generated regex is taken as the end of the subject. Where the server lets it match
  before a final newline, one more subject is accepted: `PcreDollarAdmitsNewline`.

## Model

| member | source | states |
|---|---|---|
| PushdownLaws.PushdownIsFaithful | src/mongo/pushdown.rs:60-142 | for every predicate of the fragment and every conforming document, a row SQL selects is accepted by the filter, and an exact filter accepts exactly the rows SQL selects |
| PushdownLaws.FilterIsSuperset | src/mongo/pushdown.rs:162-200 | a filter never rejects a row SQL selects, through AND with a dropped half, OR and null-strict NOT |
| PushdownLaws.ExactNeverWidens | src/mongo/pushdown.rs:60-142 | even over NOT without null safety, an exact filter accepts no row SQL rejects |
| PushdownLaws.ExactFilterDecides | src/mongo/pushdown.rs:60-142 | acceptance by an exact filter means TRUE, and where all guarded columns are present it decides the predicate |
| PushdownLaws.NegationIsFaithfulIff | src/mongo/pushdown.rs:64-73 | a negation's filter agrees with SQL on a document if and only if it is not so that the operand is FALSE while a guarded column is null or missing |
| PushdownNegation.PartialNegationIsFaithfulIff | src/mongo/pushdown.rs:64-73 | over conjunctions with dropped halves a negation loses a row if and only if the operand is FALSE while what was kept of it is TRUE or a guarded column is null; it never adds one |
| PushdownNegation.DroppedRightHalfLosesIff | src/mongo/pushdown.rs:169-182 | NOT over a conjunction whose right half was dropped loses a row exactly where the left is TRUE and the right FALSE, or the conjunction is FALSE with a column of either half null |
| PushdownNegation.DroppedLeftHalfLosesIff | src/mongo/pushdown.rs:169-182 | the same with the left half dropped |
| PushdownNegation.AnyNegationIff | src/mongo/pushdown.rs:64-73 | for any operand that translates and any document, a negation loses a row if and only if the operand is FALSE and its filter accepts or a guarded column is null, and adds one if and only if the operand is not FALSE, no guarded column is null and its filter rejects |
| PushdownLaws.BinaryComparisonDecides | src/mongo/pushdown.rs:194-226 | a comparison with the literal on either side is NULL for a null column and otherwise TRUE exactly when the filter accepts |
| PushdownLaws.FlipCompares | src/mongo/pushdown.rs:232-240 | flipping the operator and swapping the operands changes no outcome |
| PushdownLaws.BetweenDecides | src/mongo/pushdown.rs:104-118 | BETWEEN and its negation mean their range filters, NULL for a null column |
| PushdownLaws.InListDecides | src/mongo/pushdown.rs:120-131 | IN and NOT IN mean `$in` and guarded `$nin`, NULL for a null column |
| PushdownLaws.LikeDecides | src/mongo/pushdown.rs:305-334 | LIKE and NOT LIKE on a string column mean the generated regex filter, NULL for a null column |
| PushdownLaws.TestIsLeaf | src/mongo/pushdown.rs:75-84 | IS NULL and IS NOT NULL are never NULL and mean equality and inequality with null, missing fields included |
| PushdownLaws.BoolIsLeaf | src/mongo/pushdown.rs:86-101 | the four boolean tests and a bare boolean column mean their filters, NULL counting as neither |
| PushdownLaws.JunctionDecides | src/mongo/pushdown.rs:169-192 | AND and OR of decided halves decide the whole in three-valued logic |
| PushdownLaws.OutcomeShowsColumns | src/mongo/pushdown.rs:254-289 | for the null-strict predicates an outcome of FALSE (TRUE) shows that every guarded column holds a value |
| PushdownLaws.ColumnMeaning | src/mongo/pushdown.rs:376-416 | a resolved column, through nested struct fields, reads in the decoded row what its dotted path leads to in the document |
| Pushdown.CollectGuards | src/mongo/pushdown.rs:254-289 | the walk that pushes guards onto a list fails exactly when some leaf is no column, and otherwise appends the predicate's columns in order |
| Pushdown.CombineConjoins | src/mongo/pushdown.rs:146-156 | the combined filter accepts a document exactly when every component does, none meaning no filter |
| LikePattern.LikeCompiles | src/mongo/pushdown.rs:339-368 | for every pattern, escape and subject, the generated regex parses and matches exactly what LIKE matches; there is none only for a dangling escape |
| LikePattern.LikeToRegex | src/mongo/pushdown.rs:339-357 | the character loop computes that regex |
| LikePattern.PushEscaped | src/mongo/pushdown.rs:360-368 | a metacharacter is appended escaped, another character as itself |
| LikePattern.PcreDollarAdmitsNewline | src/mongo/pushdown.rs:339-357 | where `$` also matches before a final newline, exactly that newline more is accepted |
| PushdownFindings.LiteralAgreesIffFaithful | src/mongo/pushdown.rs:421-494 | a comparison filter agrees with SQL on all conforming values if and only if the literal is faithful to the column's tag |
| PushdownFindings.NotOverAndLosesRow | src/mongo/pushdown.rs:64-73 | a document on which NOT over AND, reported exact, rejects a row SQL selects |
| PushdownFindings.NotOverDroppedHalfLosesRow | src/mongo/pushdown.rs:64-73 | a document on which NOT over a conjunction with a dropped half rejects a row SQL selects: the input for these conditions |
| ColumnFindings.TextAtomIff | src/mongo/pushdown.rs:104-131 | on any column compared as text, mixed or not, at any depth, a comparison, BETWEEN or IN loses a row if and only if the value is no text, SQL's verdict on its rendering is TRUE and the predicate is neither `<>` nor NOT IN; it adds one where that verdict is not TRUE and the predicate is one of these |
| ColumnFindings.NegatedTextAtomIff | src/mongo/pushdown.rs:64-73 | under NOT the loss and the addition change places |
| ColumnFindings.TextComparisonLosesIff | src/mongo/pushdown.rs:194-226 | spelled out for a comparison: lost if and only if the value is no text, the operator is not `<>` and it holds of the rendering; under NOT if and only if the value is no text, the operator is `<>` and the rendering is the literal |
| ColumnFindings.MixedColumnNeverLosesIff | src/mongo/pushdown.rs:104-131 | such a filter is a superset on every document if and only if the predicate is `<>` or NOT IN or no rendering of a value that is no text passes it |
| PushdownFindings.MixedColumnLosesRow | src/mongo/pushdown.rs:223-225 | the number 7 equals the text 7 in SQL only: the input for these conditions |
| ColumnFindings.MergedIdEqualityNeverLosesIff | src/mongo/pushdown.rs:421-494 | where ObjectIds merged with texts, at any depth, an equality loses no row if and only if its literal is not the text of an ObjectId |
| ColumnFindings.LikeAgreesIff | src/mongo/pushdown.rs:305-334 | for every pattern, escape, negation, text column and document, the filter agrees with LIKE if and only if the value is null or a text, or its rendering does not match |
| ColumnFindings.LikeColumnAgreesIff | src/mongo/pushdown.rs:305-334 | LIKE agrees on all values of a column if and only if it holds texts, or ObjectIds of which no possible one matches, or JSON none of whose other renderings match |
| PushdownFindings.LikeOnObjectIdLosesRow | src/mongo/pushdown.rs:312-316 | every ObjectId matches `%` in SQL and is rejected by the filter, reported exact: the input for these conditions |
| ColumnFindings.TimestampInDateColumnIff | src/mongo/pushdown.rs:421-494 | on a BSON timestamp in a date column, at any depth, a comparison, BETWEEN or IN loses the row exactly where SQL finds it TRUE and it is neither `<>` nor NOT IN, and adds it where SQL does not and it is; under NOT these change places |
| ColumnFindings.TimestampComparisonIff | src/mongo/pushdown.rs:194-226 | spelled out for a root column: lost where the instant compares, kept by `<>` where the instants are equal |
| PushdownFindings.TimestampInDateColumnLosesRow | src/mongo/pushdown.rs:421-494 | a BSON timestamp after the epoch is rejected by an exact filter and selected by SQL: the input for that condition |
| MixedColumns.InferredMixedIsText | src/catalog/infer.rs:158-229 | a column inferred as mixed, at any depth, is text or a list |
| NullTests.NullTestIff | src/mongo/pushdown.rs:75-84 | for any column and document, IS NULL loses the row, and IS NOT NULL adds it, if and only if a value is stored that the column's type decodes to NULL; nothing else goes wrong |
| NullTests.UnreadByType | src/mongo/convert.rs:67-198 | which stored values each type decodes to NULL |
| NullTests.ConformingNullTestIff | src/mongo/pushdown.rs:75-84 | on an unmixed column of a conforming document IS NULL loses the row if and only if the column is of decimals and the value does not fit it |
| SampleFindings.NegationLosesSampledRows | src/mongo/pushdown.rs:64-73 | both losses of NOT strike documents of the sample the schema was inferred from |
| SampleFindings.MixedColumnLosesSampledRow | src/mongo/pushdown.rs:223-225 | a number sampled beside any text is lost by an equality with its own text |
| SampleFindings.LikeLosesSampledId | src/mongo/pushdown.rs:312-316 | the sampled ObjectId is lost by LIKE with a pattern that matches everything |
| SampleFindings.DatesLoseSampledTimestamp | src/catalog/infer.rs:158-229 | any date and any BSON timestamp sampled together form an unmixed date column, whose exact comparisons lose the timestamp just where SQL selects it |
| SampleFindings.NullTestLosesSampledDecimal | src/mongo/pushdown.rs:75-84 | the exact filter of IS NULL loses the sampled decimal if and only if its text does not parse, as that of a NaN does not |
| SampleFindings.UnpushedScanAddsSampledRow | src/mongo/provider.rs:73-115 | with filters off a scan returns the sampled document for a predicate it fails |
| SampleFindings.UnsampledIdFailsBatch | src/catalog/infer.rs:339-346 | where an integer was sampled as `_id`, one document with a text as its `_id` fails its batch |
| ShapeLaws.UnifyCommutes | src/catalog/infer.rs:157-229 | merging is commutative on all shapes, counters included |
| ShapeLaws.UnifyIdempotent | src/catalog/infer.rs:158-229 | merging shapes that differ only in counters changes nothing else and reports no conflict |
| ShapeLaws.StripUnify | src/catalog/infer.rs:158-229 | counters never influence the merged shape or the conflict flag |
| ShapeLaws.LeqIsPartialOrder | src/catalog/infer.rs:158-229 | merging induces a partial order modulo counters |
| ShapeLaws.BelowIsLeq | src/catalog/infer.rs:158-229 | that order is the structural one: widening, optional fields, scalars inside arrays, JSON on top |
| ShapeLaws.UnifyIsUpperBound | src/catalog/infer.rs:158-229 | the merged shape lies above both operands |
| ShapeLaws.UnifyIsAbove | src/catalog/infer.rs:158-229 | and the conflict flag reports any coercion of an operand on the way up |
| ShapeLaws.NoLeastUpperBound | src/catalog/infer.rs:186-229 | a number and a text have no least upper bound: below each one lies an array of it; the input for ShapeJoin.LeastUpperBoundIff |
| ShapeJoin.LeastUpperBoundIff | src/catalog/infer.rs:158-229 | two shapes have a least upper bound if and only if their merge brings no JSON that neither held there, and then it is the merge |
| ShapeJoin.JsonFreeBringsNone | src/catalog/infer.rs:158-229 | a merge that holds no JSON brings none, so it is a least upper bound |
| ShapeLaws.AssociativeWithoutArrays | src/catalog/infer.rs:157-229 | both groupings of three array-free shapes agree, flags included |
| ShapeLaws.AssociativeWithoutJson | src/catalog/infer.rs:157-229 | if either grouping ends without JSON, the other ends with the same shape |
| ShapeLaws.UnifyIsNotAssociative | src/catalog/infer.rs:157-229 | three shapes whose two groupings differ: the input for ShapeGrouping.AssociatesIff |
| ShapeGrouping.AssociatesIff | src/catalog/infer.rs:157-229 | the two groupings of three shapes agree, flags included, if and only if nowhere under arrays and common keys two neighbours degrade to JSON beside an array; the flags never differ alone |
| ShapeLaws.UnifyKeepsRun | src/catalog/infer.rs:186-200 | merging never lengthens the run of arrays at the top of a shape |
| ShapeLaws.UnifyKeepsNesting | src/catalog/infer.rs:186-220 | merging never deepens the nesting of documents |
| ShapeFold.ConflictIffClash | src/catalog/infer.rs:158-229 | merging any number of shapes reports a conflict if and only if some two of them do |
| ShapeFold.OrdersAlikeIff | src/catalog/infer.rs:157-229 | all orders of merging any number of shapes agree down to a depth if and only if the shapes are settled that far: nowhere do two degrade to JSON beside an array with no JSON there already |
| Shapes.UnifyShapes | src/catalog/infer.rs:158-229 | the merge that raises the caller's flag in place computes the specified shape and flag |
| Shapes.MergeDocuments | src/catalog/infer.rs:203-220 | the loop that updates the left map key by key computes the field-wise merge |
| Sampling.ComputeShape | src/catalog/infer.rs:232-265 | the recursion over a value with its element loop computes the value's shape |
| Sampling.Observed | src/catalog/infer.rs:267-276 | observing a value counts it, counts a null, and otherwise merges its shape and conflict into the slot |
| Sampling.Sampler.Observe | src/catalog/infer.rs:294-300 | after each document the root is the state of the whole run so far, with the true document count |
| SamplerLaws.InferenceIsSound | src/catalog/infer.rs:267-300 | after any run every value ever observed lies below its field's final shape, and an unmixed field coerced none |
| SamplerLaws.RootIsFieldRun | src/catalog/infer.rs:294-300 | the root holds exactly the keys seen, each with its own run |
| SamplerLaws.CountersAreExact | src/catalog/infer.rs:267-300 | a root field's counters are the true numbers of documents that hold it and that hold it as null |
| SamplerLaws.MixedIffClash | src/catalog/infer.rs:267-300 | a field is marked mixed if and only if two of its sampled values conflict, whatever the order |
| SamplerLaws.OrderDoesNotMatter | src/catalog/infer.rs:157-300 | where the values under a key are settled, any order of the documents gives the field the same shape, flag and counters of its own |
| SamplerLaws.FieldIgnoresOrderIff | src/catalog/infer.rs:157-300 | all orders of a sample give a field the same shape, flag and counters of its own if and only if its values are settled |
| SamplerLaws.TameSamplesSettle | src/catalog/infer.rs:157-300 | values without arrays are settled, and so are values that merge to a shape without JSON |
| SchemaOrder.SchemaIgnoresOrder | src/catalog/infer.rs:315-417 | of a settled sample any order infers the same columns: names, types, nullability, tags, paths, mixed flags and root frequencies, apart from the frequencies of nested fields |
| SchemaOrder.SchemaIgnoresOrderIff | src/catalog/infer.rs:315-417 | all orders of a sample infer those same columns if and only if the sample is settled down to the depth limit, whatever that is |
| SchemaOrder.CountersAddIff | src/catalog/infer.rs:158-165 | merging two documents adds the counters of a key they share if and only if they differ or the second never held the key |
| SchemaOrder.NestedCountersDependOnOrder | src/catalog/infer.rs:158-165 | three documents one order of which counts a nested key twice, another three times: the input for SchemaOrder.CountersAddIff |
| SchemaOrder.FrequenciesDependOnOrder | src/catalog/infer.rs:346-355 | so the two orders infer schemas that differ, in the frequency of a nested field |
| SchemaOrder.TypeDependsOnOrder | src/catalog/infer.rs:157-229 | three documents one order of which infers text, another a list: the input for SchemaOrder.SchemaIgnoresOrderIff |
| SamplerLaws.ObservationsStayShallow | src/catalog/infer.rs:186-300 | any number of observations stays within the deepest single one |
| ArrowSchema.LoweredTypeIsShallow | src/catalog/infer.rs:364-417 | the lowered type nests at most `max_depth` structs and lists |
| SampleConforms.InferredIsWellFormed | src/catalog/infer.rs:315-362 | the inferred schema names its columns apart and gives every field its path and a tag that fits its type |
| SampleConforms.SampledDocumentsConform | src/catalog/infer.rs:315-417 | a sampled document conforms, column by column, to the schema inferred from the sample if and only if no BSON timestamp of its stands in an unmixed date column |
| NoLoss.SampledValueIsKeptIff | src/catalog/infer.rs:315-417 | decoding a sampled value gives NULL only where it is null, undefined or missing, at every struct and list position, and drops no key, if and only if each of its numbers in a decimal column fits that |
| NoLoss.NoSampledValueIsLost | src/catalog/infer.rs:315-417 | in particular nothing is lost of a column in which no decimal was sampled |
| DottedKeys.ColumnReadsItsKeyIff | src/mongo/convert.rs:49-60 | the path of a root column leads every document to the key it was inferred from if and only if the key has no dot |
| DottedKeys.DottedKeyIsNeverRead | src/catalog/infer.rs:315-327 | a sampled key with a dot gets a column whose value does not depend on what any document holds under that key |
| DottedKeys.ChildReadsItsKeyIff | src/mongo/convert.rs:127-154 | the dotted path a filter sends for a struct's child leads every document to the value decoding reads if and only if the child's key has no dot |
| DottedKeys.DottedChildLosesRow | src/mongo/pushdown.rs:376-416 | an exact equality on an integer child whose key has a dot loses the document that holds just that integer there |
| Conversion.InferredConvertsIff | src/mongo/convert.rs:27-47 | a batch of any documents against columns of an inferred schema converts if and only if its lists fit 32-bit offsets and, where `_id` is read, each decodes to a value |
| Arrow.TagRoundTrip | src/catalog/infer.rs:64-102 | the tag written into a field's metadata is the tag read back |
| Arrow.Lookup | src/mongo/convert.rs:49-60 | the walk along a dotted path reaches the value its segments lead to through embedded documents, or nothing |
| Columnar.BuildArray | src/mongo/convert.rs:67-198 | a column is built unless its type has no builder, a struct is empty, decimal parameters are bad, a list overflows, or a child field that forbids NULL holds it in a valid row; row i of it reads as value i decoded alone |
| Columnar.BuildStruct | src/mongo/convert.rs:127-154 | the same for struct columns, whose validity is kept apart from their children and masks their nulls |
| Columnar.BuildList | src/mongo/convert.rs:156-190 | the same for list columns over a flattened child |
| Columnar.FlattenRows | src/mongo/convert.rs:157-181 | one pass yields all elements end to end, where each row starts, and which rows are valid, a lone value counting as a list of one |
| Exec.DocumentsToBatch | src/mongo/convert.rs:27-47 | a batch is refused exactly when a column cannot be built or holds NULL where its field forbids it; otherwise each cell is the document's value at the field's path, decoded |
| Exec.NextDocs | src/mongo/exec.rs:204-216 | one step takes a full batch or what the cursor still holds, and fails exactly when it meets a broken cursor |
| Exec.Drain | src/mongo/exec.rs:199-218 | the batches concatenate to the cursor, none is empty, only the last is short; a broken cursor loses only its unfinished batch and says so |
| Execute.BatchDecodes | src/mongo/convert.rs:27-47 | each row of a converted batch is its document decoded alone |
| Execute.Stream | src/mongo/exec.rs:199-218 | a partition's stream fails exactly if its cursor breaks or a batch does not convert; otherwise its rows are the documents, decoded, in order |
| Execute.RunScan | src/mongo/exec.rs:199-218 | a whole scan fails exactly if some batch of some plan does not convert; otherwise what its batches hold, after the recheck, are the rows the scan theorems speak of |
| DecimalText.NumeralParses | src/mongo/convert.rs:258-305 | a numeral parses to its value scaled and truncated toward zero, and to nothing only if a number leaves 128 bits or the shift leaves 38 places |
| DecimalText.NumeralParsesIff | src/mongo/convert.rs:258-305 | for numerals of any length the parse is that of the shift wrapped to 32 bits, which is the true value if and only if the shift fits 32 bits or the wrapped one gives nothing |
| DecimalText.AcceptedIsNumeral | src/mongo/convert.rs:258-305 | whatever parses is a numeral surrounded by white space |
| DecimalText.IntegerShortcutAgrees | src/mongo/convert.rs:249-256 | for scale at least 0, scaling an i64 directly agrees with parsing its text |
| DecimalText.AccumulateDigits | src/mongo/convert.rs:288-291 | the checked digit loop yields the number, or nothing exactly when it exceeds i128 |
| DecimalText.Parse | src/mongo/convert.rs:258-305 | the parser with that loop computes the specified result |
| DecimalText.NoDigitsIsZero | src/mongo/convert.rs:269-305 | every numeral without digits, exponents included, reads as zero if its shift is within 38 places, and otherwise as nothing |
| DecimalText.SignAloneIsZero | src/mongo/convert.rs:269-286 | in particular a lone sign or point |
| Base64.DecodeInvertsEncode | src/mongo/convert.rs:336-352 | a decoder written from section 4 of RFC 4648 recovers every byte sequence |
| Base64.EncodedLength | src/mongo/convert.rs:336-352 | four characters for every three bytes begun |
| Base64.PaddingIsLast | src/mongo/convert.rs:345-349 | padding stands exactly where the last group is short |
| Base64.EncodeBytes | src/mongo/convert.rs:340-351 | the loop over chunks, with the source's alphabet table, computes that encoding |
| Partition.PartitionBounds | src/mongo/pipeline.rs:150-175 | the two loops compute the ranges between the cut points |
| Partition.RangeAcceptsIff | src/mongo/pipeline.rs:137-175 | for sorted cut points of any brackets, a range accepts a document if and only if it is the one at the document's place among them and its bounds share the document's bracket |
| Partition.PartitionsCoverOnce | src/mongo/pipeline.rs:137-175 | for a sample of one bracket and every n each document of the bracket, sampled or not, satisfies exactly one range, and there are at most max(1, n) |
| Partition.PartitionsReach | src/mongo/client.rs:192-220 | for every sorted sample, of one bracket or several, a document satisfies exactly one range if there is no cut point or those beside its place share its bracket, and otherwise none; there are at most max(1, n) |
| Partition.OneBracketReaches | src/mongo/pipeline.rs:137-175 | where the cut points share a bracket, the documents reached are those of that bracket |
| Partition.MixedIdsAreLost | src/mongo/client.rs:206-210 | of six integers and texts sampled as ids, every integer from the last integer cut up and every text before the first text cut is in no range |
| Partition.CutPointsIncrease | src/mongo/pipeline.rs:154-163 | cut points strictly increase, by bracket and key, when equal keys are equal ids |
| Projection.KeptIsPrefixFree | src/mongo/pipeline.rs:100-130 | no kept path is a prefix, by segments, of another |
| Projection.KeptCovers | src/mongo/pipeline.rs:100-130 | every requested path is kept or lies under a kept one |
| Projection.ProjectionKeepsLookups | src/mongo/pipeline.rs:100-130 | looking a requested path up in the projected document finds what the original holds |
| Projection.UnrequestedIdIsDropped | src/mongo/pipeline.rs:114-122 | `_id` is not sent when nothing under it was requested |
| Projection.BuildProjection | src/mongo/pipeline.rs:100-124 | the loop over paths builds the specified projection |
| Scan.PipelineMeaning | src/mongo/pipeline.rs:51-92 | running the stages is to match, skip, limit and project, in that order |
| Scan.MatchStageConjoins | src/mongo/pipeline.rs:51-66 | the match stage accepts what both the filter and the partition accept |
| Scan.ToPipeline | src/mongo/pipeline.rs:68-92 | the statements that push stages build that list |
| Scan.FilterAndRecheckSelect | src/mongo/provider.rs:73-89 | the combined filter together with a local recheck of what was not reported exact selects exactly the rows where all conjuncts are TRUE |
| Scan.ProjectedDocDecodes | src/mongo/provider.rs:131-135 | decoding the projected document gives the row of the original |
| Scan.ScanIsFaithful | src/mongo/provider.rs:100-188 | over all partitions of a sorted id sample, of one bracket or several, and any collection of conforming documents, the rows are, as a multiset, exactly those SQL selects among the documents the partitions reach |
| Scan.ScanIsCompleteIff | src/mongo/provider.rs:100-188 | they are all rows SQL selects if and only if every selected document is reached |
| Scan.LimitedScanIsPrefix | src/mongo/provider.rs:140-173 | under a limit, pushed or not, the first rows returned are the first SQL selects, in the collection's order |
| ScanFindings.UnpushedScanIsFaithfulIff | src/mongo/provider.rs:73-115 | with filter pushdown off the scan of a collection is faithful if and only if no document fails just a filter that was reported exact |
| ScanFindings.NoExactFilterIsFaithful | src/mongo/provider.rs:73-115 | if no filter is reported exact, every collection is scanned faithfully |
| ScanFindings.FailedExactFilterAddsRow | src/mongo/provider.rs:73-115 | otherwise any collection with a document that passes the kept filters and fails an exact one is not |
| ScanFindings.UnpushedScanAlwaysFaithfulIff | src/mongo/provider.rs:73-115 | all collections are scanned faithfully if and only if no document can do so |
| ScanFindings.DroppedFilterKeepsRow | src/mongo/provider.rs:73-115 | a predicate and a document for which the rows returned differ, as multisets, from those SQL selects |
| EndToEnd.RestartedScanIsFaithful | src/mongo/provider.rs:100-188 | after inferring, persisting and reloading a schema, a scan of sampled or other conforming documents returns exactly the rows SQL selects, if the partitions reach those |
| JsonParser.PrintedRowParses | src/server/encode.rs:152-235 | the text printed for any row parses whole, by RFC 8259, to the tree of the value the row holds, provided doubles and decimals are rendered as numbers |
| JsonParser.ValueParses | src/server/encode.rs:152-217 | wherever a printed value stands, the reader takes exactly its text |
| JsonParser.NumberLocal | src/server/encode.rs:167-203 | a number, with fraction and exponent or without, is read up to the separator after it and no further |
| JsonParser.QuotedParses | src/server/encode.rs:219-235 | unquoting a quoted text gives the text, control and quote characters included |
| JsonParser.HexReads | src/server/encode.rs:237-243 | two digits spell each byte, the high half first |
| JsonText.ColumnPrintsValue | src/server/encode.rs:152-217 | printing a columnar row depends only on the value the row reads |
| JsonText.Quote | src/server/encode.rs:219-235 | the loop over characters builds the quoted text |
| JsonText.Hex | src/server/encode.rs:237-243 | the loop over bytes builds the hexadecimal text |
| Statements.Split | src/server/mod.rs:354-390 | the loop with its look-ahead at doubled quotes returns the trimmed, non-blank pieces of the quote-parity specification |
| Statements.CutsAreTopLevelSemicolons | src/server/mod.rs:354-390 | the pieces joined by semicolons are the message, and a piece ends exactly at each semicolon outside quotes |
| Statements.SplitOfJoin | src/server/mod.rs:354-390 | splitting the semicolon-join of the statements returns the same statements |
| Compat.Qualify | src/server/compat.rs:159-213 | the scan inserts the qualifier before exactly the bare listed identifiers |
| Compat.InsertionsOnly | src/server/compat.rs:159-213 | every character is copied in order, shifted by the insertions before it, and each insertion is the qualifier, so deleting them restores the input |
| Compat.QualifyTwice | src/server/compat.rs:159-213 | rewriting is idempotent on every input |
| Compat.LiteralsUnchanged | src/server/compat.rs:170-188 | every single-quoted literal comes through unchanged |
| Store.SchemaRoundTrip | src/catalog/store.rs:82-141 | a schema has a stored form exactly when every type at every depth has one, and then reads back as itself, names, nullability and metadata included |
| Store.StoredSchemaRoundTrip | src/catalog/store.rs:82-141 | every stored form comes back as itself |
| Store.InferredIsStorable | src/catalog/store.rs:82-103 | every schema the sampler can produce has a stored form |
| Store.ReloadKeepsStorable | src/catalog/store.rs:209-262 | a reload gives back exactly the tables that have a stored form, schema, statistics and time unchanged |
| Store.InferredTablesSurvive | src/catalog/store.rs:209-262 | a store of inferred schemas survives a restart whole |
| Store.KeysAreDistinct | src/catalog/store.rs:169-171 | collections of databases without a dot in their name never share a key |
| Store.CatalogStore.constructor | src/catalog/store.rs:158-166 | a new store holds what a file of the current version stores, and otherwise nothing |
| Store.CatalogStore.Put | src/catalog/store.rs:188-195 | one table is replaced, all others stay, and the file holds every storable table |
| Store.CatalogStore.Persist | src/catalog/store.rs:241-262 | the file holds exactly the tables with a stored form |
| Store.CatalogStore.GetFresh | src/catalog/store.rs:179-186 | an entry is fresh up to the given age, always at age zero, and never stale for a clock set back |
| Store.CatalogStore.KnownTables | src/catalog/store.rs:197-207 | lists each collection of the database exactly once |

## Left out

- The MongoDB driver, sampling queries, statistics and connections: sampled ids and documents are inputs.
- DataFusion's planner: its contract with the provider (recheck what is not exact, pass a limit only when all filters are) is written into `Scan`.
- The wire protocol, authentication, timeouts, the HTTP interface and configuration parsing: plumbing.
- `pg_catalog` views, registered functions, `strip_pg_catalog_prefix` and `rewrite_show`: constant tables, or would only add easy members.
- Doubles are finite reals: NaN, infinities, rounding of large integers and their text are not modelled.
- Decimal128 is its display text: comparisons on decimal columns are outside the pushdown fragment, and its text is the driver's.
- Case-insensitive LIKE, SIMILAR TO, casts and functions other than struct access stand in predicates as parts that do not translate.
- Mongo's implicit walk through arrays in dotted paths, and comparisons on list columns.
- The order of the keys inside a BSON document: shown only by renderings, which are a parameter.
- Field counters are unbounded, where the source's u64 would overflow after 2^64 documents.
- PushdownLaws.NegationIsFaithfulIff: for exact operands of the fragment; dropped halves are PushdownNegation.PartialNegationIsFaithfulIff, all others PushdownNegation.AnyNegationIff.
- PushdownNegation.PartialNegationIsFaithfulIff: the dropped half stands under AND and OR, and every kept comparison is exact; all other operands are PushdownNegation.AnyNegationIff.
- PushdownLaws.BetweenDecides: for unmixed columns; those compared as text are ColumnFindings.TextAtomIff.
- PushdownLaws.InListDecides: likewise.
- PushdownLaws.LikeDecides: for columns of texts; other columns are ColumnFindings.LikeAgreesIff.
- PushdownLaws.TestIsLeaf: for unmixed scalar columns other than decimals; every column is NullTests.NullTestIff.
- SampleConforms.InferredIsWellFormed: excludes keys with dots, whose paths lead elsewhere (DottedKeys.ColumnReadsItsKeyIff, DottedKeys.ChildReadsItsKeyIff).
- SampleConforms.SampledDocumentsConform: excludes root keys with dots, for the same reason.
- NoLoss.SampledValueIsKeptIff: excludes root keys with dots, which are never read (DottedKeys.DottedKeyIsNeverRead).
- NoLoss.NoSampledValueIsLost: excludes columns with decimals, for which NoLoss.SampledValueIsKeptIff has the condition.
- EndToEnd.RestartedScanIsFaithful: excludes keys with dots at any depth, and assumes what it needs of the other findings: documents that conform and that the partitions reach. The id sample may hold several brackets.
- DecimalText.NumeralParses: for fractions of at most 2^30 digits; longer ones are DecimalText.NumeralParsesIff.
- Partition.PartitionsCoverOnce: for one comparison bracket; several are Partition.PartitionsReach.
- Partition.PartitionsReach: of ids with an order in the model; ids that are documents, decimals or null have none, nor have Scan.ScanIsFaithful and Scan.ScanIsCompleteIff for them.
- SamplerLaws.OrderDoesNotMatter: for settled values; it fails for all others (SamplerLaws.FieldIgnoresOrderIff).
- SchemaOrder.FrequenciesDependOnOrder: when counters add up is stated for one merge (SchemaOrder.CountersAddIff), not for a whole sample.
- JsonParser.PrintedRowParses: that other libraries print doubles and decimals as JSON numbers is assumed of the rendering, row by row.
- JsonParser.ValueParses: makes the same assumption.
- Scan.PipelineMeaning: does not model the sort stage, which no caller builds (src/mongo/provider.rs:167).
- Scan.ToPipeline: does not model the sort stage, for the same reason.
- Columnar.BuildArray: works on sequences; Arrow's buffers and bitmaps are not modelled, and its panic on a forbidden NULL counts as a failure like the errors.
- Store.CatalogStore.Put: the file is an object that keeps what is written; failed writes, locks, JSON serialization and the rename are not modelled.
