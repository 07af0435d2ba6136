# Outer join, grouped sums, typed integers, component equality and inline datasets

A Dafny model of five small pieces of the VTL engine:

- **Outer join** (`OuterJoinOperation`). The constructor puts the common
  identifiers into the join scope. `computeData` works in this order:
  1. It rejects an ordering it cannot make compatible.
  2. It opens the first dataset's stream and wraps it in the capacity
     expander.
  3. It folds the other datasets in left to right, outer-joining each one's
     stream onto the result.
  4. It registers every stream it opens with a `Closer`.

  The closer is closed in one of two places. The returned stream's close
  hook closes it: an `IOException` from closing is dropped, and an
  unchecked exception gets out of the hook. If wiring fails, the catch
  block closes it on the spot. An `IOException` from closing is added to
  the wiring's exception as suppressed. An unchecked one is thrown in place
  of the wiring's exception.
  The model is a pure fold over the datasets. Streams are terms that record
  how they were built. The collaborators the operation calls are
  parameters: they say what each call returns and where it throws.
- **Grouped sum** (the sum operation `AggregationVisitorTest` checks). Rows
  arrive grouped by key, and each run of equal keys becomes one row with
  the run's total. The convenience form infers the measure. It refuses a
  dataset with two measures, as the test shows. The model also refuses a
  dataset with no measure. The explicit form sums the named measure.
  The test's three examples are proved outright.
- **`VTLInteger`**: a nullable `Long`. `of(Integer)` widens its argument, and
  `NULL` wraps `null`.
- **`AbstractComponent`**: `equals` and `hashCode` over the (name, type,
  value) triple. The hash is Java's `Objects.hash`, with 32-bit wrap-around.
- **`createDataset`** (`vtl-dataset.js`): the parser for the inline dataset
  text. The JavaScript it relies on is modelled too:
  - `String.prototype.trim`, `split` and `Array.prototype.join`;
  - the split on `/\r\n|\n/`;
  - the leftmost-match semantics of `RegExp.prototype.exec`;
  - `ToNumber` on strings, for the `lines < 1` guard.

  A renderer is defined as the parser's partner. The model proves that
  parsing a rendered dataset gives the dataset back.

Modules:
- `Wrappers`: Option and Result.
- `Roles`: the component roles.
- `JavaInts`: `int`/`long` ranges and the wrap-around.
- `VtlIntegers`.
- `Components`.
- `Aggregation`.
- `OuterJoin`.
- `JsText`: trim, split, join and line splitting.
- `JsNumber`: `ToNumber` and `< 1`.
- `DatasetText`: `createDataset`.
- `DatasetRender`: the inverse writer and the round trip.

Where the code and its description disagree, the model follows the code:
- The guard `lines < 1` compares the array, through `lines.join(",")`
  converted to a number, with 1. It does not compare the array's length.
  With two or more lines it never fires. With one line it fires when that
  line reads as a number below one, such as the empty line or `"0"`.
- `columnRegex.exec` returns `null` for a cell that does not match, so
  `cell.length` throws. The "invalid header format" throws are unreachable:
  `split` never yields zero cells, and a successful match always has four
  entries. An unmatched cell is reported as `HeaderCellUnmatched`.
- The cleaning pattern replaces each run of leading or trailing line breaks
  with one space, and each dot with a space. It does not delete them.
- The loop at OuterJoinOperation.java line 139 adds `original` again rather
  than the right stream. So `originals` holds the first stream once per
  dataset, and the model states exactly that.

## Model

OuterJoinOperation.java stands for java-vtl-script/src/main/java/no/ssb/vtl/script/operations/join/OuterJoinOperation.java in the prose; the table gives full paths.

| member | source | states |
|---|---|---|
| OuterJoin.JoinScope | java-vtl-script/src/main/java/no/ssb/vtl/script/operations/join/OuterJoinOperation.java:79-89 | the scope afterwards holds exactly the old names plus the names of the common identifiers, and names not among them keep their old component |
| OuterJoin.JoinScopeLastWins | java-vtl-script/src/main/java/no/ssb/vtl/script/operations/join/OuterJoinOperation.java:83-88 | an identifier whose name no later identifier reuses is what the scope holds under that name |
| OuterJoin.JoinScopeFindsEachIdentifier | java-vtl-script/src/main/java/no/ssb/vtl/script/operations/join/OuterJoinOperation.java:83-88 | with distinct names every common identifier is found under its own name |
| OuterJoin.Reverse | java-vtl-script/src/main/java/no/ssb/vtl/script/operations/join/OuterJoinOperation.java:113 | the closer's close order: the i-th stream closed is the i-th from the end of the registration order |
| OuterJoin.ReverseIsPermutation | java-vtl-script/src/main/java/no/ssb/vtl/script/operations/join/OuterJoinOperation.java:113 | closing in reverse closes each registered stream as often as it was registered |
| OuterJoin.Close | java-vtl-script/src/main/java/no/ssb/vtl/script/operations/join/OuterJoinOperation.java:167-187 | a close marks the closer closed and keeps its registrations; the first close closes every registered stream and throws the close failure only when something was registered; a second close changes nothing and throws nothing |
| OuterJoin.CloseIdempotent | java-vtl-script/src/main/java/no/ssb/vtl/script/operations/join/OuterJoinOperation.java:165-190 | closing twice is closing once, and the second close throws nothing |
| OuterJoin.CloseClosesEachOnce | java-vtl-script/src/main/java/no/ssb/vtl/script/operations/join/OuterJoinOperation.java:165-190 | a fresh closer closes each registered stream exactly once however often it is closed |
| OuterJoin.Start | java-vtl-script/src/main/java/no/ssb/vtl/script/operations/join/OuterJoinOperation.java:116-125 | the start goes through exactly when neither the component mapping, nor opening the first stream, nor the expander step throws; then the first source is the one stream open and the closer holds it behind its expander; after a throw the closer is fresh, and the first stream is open but unregistered exactly when only the expander step threw |
| OuterJoin.FoldStep | java-vtl-script/src/main/java/no/ssb/vtl/script/operations/join/OuterJoinOperation.java:129-161 | one loop turn goes through exactly when neither opening the next source nor building its join throws, and then adds that source to the opened and the registered streams; a join failure leaves the source opened, an open failure does not |
| OuterJoin.Wire | java-vtl-script/src/main/java/no/ssb/vtl/script/operations/join/OuterJoinOperation.java:114-162 | wiring n datasets that goes through has n streams open, the first being the first dataset's source; a broken wiring has opened at most n |
| OuterJoin.WireOpens | java-vtl-script/src/main/java/no/ssb/vtl/script/operations/join/OuterJoinOperation.java:116-140 | after the first n datasets, the opened streams are their sources in dataset order, each asked for the required order adjusted to its own structure and the caller's filtering and columns; unless the expander step threw, every one is registered (the first behind its expander); the closer has closed nothing; all n are open when wiring went through |
| OuterJoin.FoldStepOpens | java-vtl-script/src/main/java/no/ssb/vtl/script/operations/join/OuterJoinOperation.java:129-140 | one loop turn opens and registers at most the stream of the next dataset, keeping the earlier ones |
| OuterJoin.WireLeaksFirstStream | java-vtl-script/src/main/java/no/ssb/vtl/script/operations/join/OuterJoinOperation.java:117-125 | when the expander step throws, wiring stops there with its exception, the first stream open and nothing registered |
| OuterJoin.WireSucceedsIff | java-vtl-script/src/main/java/no/ssb/vtl/script/operations/join/OuterJoinOperation.java:114-162 | the fold goes through exactly when neither the mapping, nor an open, nor the expander step, nor a join throws |
| OuterJoin.WireStopsOnFirstFailure | java-vtl-script/src/main/java/no/ssb/vtl/script/operations/join/OuterJoinOperation.java:114-162 | the fold goes through exactly when no failure point throws, and otherwise stops with the exception of the first failure point in source order |
| OuterJoin.WireOriginals | java-vtl-script/src/main/java/no/ssb/vtl/script/operations/join/OuterJoinOperation.java:123-139 | originals has one entry per dataset and every entry is the first stream |
| OuterJoin.WireShape | java-vtl-script/src/main/java/no/ssb/vtl/script/operations/join/OuterJoinOperation.java:128-162 | n datasets give n-1 left-deep outer joins over the expanded first stream, right sides in dataset order, left key from the first dataset only on the first join and from the join's structure with the identity mapping afterwards, right key from the right dataset |
| OuterJoin.FoldStepShape | java-vtl-script/src/main/java/no/ssb/vtl/script/operations/join/OuterJoinOperation.java:142-161 | one loop turn adds one join whose keys follow the first-fold rule |
| OuterJoin.ComputeData | java-vtl-script/src/main/java/no/ssb/vtl/script/operations/join/OuterJoinOperation.java:92-193 | no compatible order: unsupported-operation failure with nothing opened and no closer; the predicate throws: that exception with nothing opened; no datasets: no-such-element with nothing opened; a failure after the closer exists comes from the first failing wiring step and leaves the closer closed over everything registered, and the thrown exception is that step's, with an `IOException` from closing as its only suppressed exception, or the unchecked exception from closing instead; success returns the close-hooked stream with the caller's orders and filtering and the required order, closer still open |
| OuterJoin.Caught | java-vtl-script/src/main/java/no/ssb/vtl/script/operations/join/OuterJoinOperation.java:185-191 | the catch block closes the closer over everything registered; it throws the wiring's exception alone when closing threw nothing or nothing was registered, with the `IOException` from closing as suppressed, or the unchecked exception from closing in its place |
| OuterJoin.CloseReturned | java-vtl-script/src/main/java/no/ssb/vtl/script/operations/join/OuterJoinOperation.java:165-171 | the close hook closes the closer; something escapes exactly when the closer was still open, something was registered and closing threw an unchecked exception, and then it is that exception; an `IOException` never escapes |
| OuterJoin.ComputeDataSucceedsIff | java-vtl-script/src/main/java/no/ssb/vtl/script/operations/join/OuterJoinOperation.java:95-193 | a stream is returned exactly when an order is compatible, the predicate computes, there is a dataset, and nothing throws while wiring |
| OuterJoin.ComputeDataRegistersAll | java-vtl-script/src/main/java/no/ssb/vtl/script/operations/join/OuterJoinOperation.java:103-140 | after the order check the opened streams are the sources in order, the closer exists exactly when the predicate computed and there is a dataset, it holds every opened stream unless the expander step threw, and on success it has closed nothing |
| OuterJoin.ExpandFailureLeaksFirstStream | java-vtl-script/src/main/java/no/ssb/vtl/script/operations/join/OuterJoinOperation.java:117-125 | when the expander step throws, the call fails with the first stream opened, nothing registered, and the first stream never closed |
| OuterJoin.ComputeDataResult | java-vtl-script/src/main/java/no/ssb/vtl/script/operations/join/OuterJoinOperation.java:106-183 | on success every dataset's stream is open, the originals are the first stream once per dataset, and the delegate's spine starts at the expanded first stream with the other streams as right sides in order |
| OuterJoin.ComputeDataLeftKeys | java-vtl-script/src/main/java/no/ssb/vtl/script/operations/join/OuterJoinOperation.java:146-152 | on success there are n-1 joins and each left key follows the first-fold rule |
| OuterJoin.ClosingResultClosesAll | java-vtl-script/src/main/java/no/ssb/vtl/script/operations/join/OuterJoinOperation.java:165-171 | closing the returned stream closes each opened stream exactly once and lets only an unchecked close failure out; closing it again closes nothing more and throws nothing |
| OuterJoin.FailureClosesAll | java-vtl-script/src/main/java/no/ssb/vtl/script/operations/join/OuterJoinOperation.java:185-191 | when wiring throws, the closer is closed and has closed each registered stream exactly once, which is each opened stream unless the expander step threw |
| OuterJoin.UnsupportedFiltering | java-vtl-script/src/main/java/no/ssb/vtl/script/operations/join/OuterJoinOperation.java:195-198 | always throws an unsupported-operation exception with message "TODO" |
| OuterJoin.UnsupportedOrdering | java-vtl-script/src/main/java/no/ssb/vtl/script/operations/join/OuterJoinOperation.java:200-203 | always throws an unsupported-operation exception with message "TODO" |
| Aggregation.TestableDatasetContract | java-vtl-script/src/test/java/no/ssb/vtl/script/visitors/AggregationVisitorTest.java:130-160 | the size is the row count, there are no distinct-value counts, and structure and data are the ones given |
| Aggregation.Runs | java-vtl-script/src/test/java/no/ssb/vtl/script/visitors/AggregationVisitorTest.java:84-88 | the run reduction has at most as many entries as its input and ends with the key of the last entry |
| Aggregation.RunsAlternate | java-vtl-script/src/test/java/no/ssb/vtl/script/visitors/AggregationVisitorTest.java:84-88 | neighbouring runs have different keys |
| Aggregation.RunsKeys | java-vtl-script/src/test/java/no/ssb/vtl/script/visitors/AggregationVisitorTest.java:84-88 | the keys of the runs are exactly the keys of the input |
| Aggregation.RunsOfGrouped | java-vtl-script/src/test/java/no/ssb/vtl/script/visitors/AggregationVisitorTest.java:34-88 | on input grouped by key, each key has one run and the run's amount is the sum of that key's amounts |
| Aggregation.RunsWhenGrouped | java-vtl-script/src/test/java/no/ssb/vtl/script/visitors/AggregationVisitorTest.java:84-88 | the whole-input form of the previous row |
| Aggregation.RunsTotal | java-vtl-script/src/test/java/no/ssb/vtl/script/visitors/AggregationVisitorTest.java:84-88 | the runs add up to the same total as the input |
| Aggregation.Position | java-vtl-script/src/test/java/no/ssb/vtl/script/visitors/AggregationVisitorTest.java:68 | a component's position is its first occurrence in the structure |
| Aggregation.Measures | java-vtl-script/src/test/java/no/ssb/vtl/script/visitors/AggregationVisitorTest.java:93-98 | the measures are exactly the structure's components with the measure role |
| Aggregation.Entries | java-vtl-script/src/test/java/no/ssb/vtl/script/visitors/AggregationVisitorTest.java:34-42 | one (key, amount) entry per row, keys as long as the group-by list |
| Aggregation.SumOf | java-vtl-script/src/test/java/no/ssb/vtl/script/visitors/AggregationVisitorTest.java:68-125 | the result structure is the group-by components plus the measure as a long measure; rows conform to it; the result keys are exactly the input keys; on grouped input keys are distinct and each row's sum is the sum of its key's amounts |
| Aggregation.SumOfOnlyMeasure | java-vtl-script/src/test/java/no/ssb/vtl/script/visitors/AggregationVisitorTest.java:69-98 | fails exactly when the dataset has other than one measure, whatever the measures' types, with that count; otherwise it is the explicit sum over that measure |
| Aggregation.RunsOfThreeRuns | java-vtl-script/src/test/java/no/ssb/vtl/script/visitors/AggregationVisitorTest.java:34-42 | nine entries in three runs of three reduce to the three run sums |
| Aggregation.RunsOfYearEntries | java-vtl-script/src/test/java/no/ssb/vtl/script/visitors/AggregationVisitorTest.java:34-88 | the test's year entries reduce to 120, 93 and 246 |
| Aggregation.EntriesByYear | java-vtl-script/src/test/java/no/ssb/vtl/script/visitors/AggregationVisitorTest.java:68 | grouping by time and summing m1 reads the time and m1 columns of each row |
| Aggregation.SingleMeasureValid | java-vtl-script/src/test/java/no/ssb/vtl/script/visitors/AggregationVisitorTest.java:29-42 | every row of the single-measure dataset conforms to its structure |
| Aggregation.MultiMeasureValid | java-vtl-script/src/test/java/no/ssb/vtl/script/visitors/AggregationVisitorTest.java:45-60 | every row of the two-measure dataset conforms to its structure |
| Aggregation.SumOfYearEntries | java-vtl-script/src/test/java/no/ssb/vtl/script/visitors/AggregationVisitorTest.java:84-88 | a dataset whose m1 entries are the year entries sums to the three year rows |
| Aggregation.SumSingleMeasureExample | java-vtl-script/src/test/java/no/ssb/vtl/script/visitors/AggregationVisitorTest.java:65-90 | the convenience form on the single-measure dataset gives time (identifier, string) and m1 (measure, long) with 120, 93, 246 |
| Aggregation.SumMultiMeasureFails | java-vtl-script/src/test/java/no/ssb/vtl/script/visitors/AggregationVisitorTest.java:93-98 | the convenience form refuses the two-measure dataset with an illegal-argument failure |
| Aggregation.SumMultiMeasureExplicitExample | java-vtl-script/src/test/java/no/ssb/vtl/script/visitors/AggregationVisitorTest.java:100-127 | naming m1 on the two-measure dataset gives the same structure and totals |
| VtlIntegers.OfLong | java-vtl-model/src/main/java/no/ssb/vtl/model/VTLInteger.java:37-43 | `get()` returns exactly the argument, null included |
| VtlIntegers.OfInteger | java-vtl-model/src/main/java/no/ssb/vtl/model/VTLInteger.java:33-35 | null gives the null integer; any other argument is widened to long |
| VtlIntegers.NullIsNull | java-vtl-model/src/main/java/no/ssb/vtl/model/VTLInteger.java:23 | NULL holds null and is `of(Long)` of null |
| VtlIntegers.OfLongGet | java-vtl-model/src/main/java/no/ssb/vtl/model/VTLInteger.java:37-43 | `of(Long)` and `get()` are inverse both ways |
| VtlIntegers.OfIntegerIsOfLongWidened | java-vtl-model/src/main/java/no/ssb/vtl/model/VTLInteger.java:33-35 | the Integer factory is the Long factory on the widened value, and the value narrows back to the argument |
| VtlIntegers.TypeIgnoresValue | java-vtl-model/src/main/java/no/ssb/vtl/model/VTLInteger.java:28-31 | the type is the integer type whatever the value, null included |
| Components.Equals | java-vtl-model/src/main/java/kohl/hadrien/vtl/model/AbstractComponent.java:29-35 | null is unequal; the same object is equal; otherwise equal exactly when class and triple agree |
| Components.EqualsIsClassAndTriple | java-vtl-model/src/main/java/kohl/hadrien/vtl/model/AbstractComponent.java:30-35 | on a consistent heap, equality is exactly same class and same triple |
| Components.EqualsReflexive | java-vtl-model/src/main/java/kohl/hadrien/vtl/model/AbstractComponent.java:30 | every component equals itself |
| Components.EqualsSymmetric | java-vtl-model/src/main/java/kohl/hadrien/vtl/model/AbstractComponent.java:31-35 | a equals b exactly when b equals a |
| Components.EqualsTransitive | java-vtl-model/src/main/java/kohl/hadrien/vtl/model/AbstractComponent.java:31-35 | equality is transitive on a consistent heap |
| Components.CodeUnits | java-vtl-model/src/main/java/kohl/hadrien/vtl/model/AbstractComponent.java:22 | a character below U+10000 is one UTF-16 unit, itself; any other is a high and a low surrogate that decode back to it |
| Components.Utf16 | java-vtl-model/src/main/java/kohl/hadrien/vtl/model/AbstractComponent.java:22 | the UTF-16 encoding has at least one unit per character and every unit is a 16-bit value |
| Components.Utf16OfBasic | java-vtl-model/src/main/java/kohl/hadrien/vtl/model/AbstractComponent.java:22 | a string of characters below U+10000 encodes to those characters, one unit each |
| Components.UnitsHashIsPolynomial | java-vtl-model/src/main/java/kohl/hadrien/vtl/model/AbstractComponent.java:22 | the hash over UTF-16 units wrapped at every step equals the exact polynomial wrapped once |
| Components.StringHash | java-vtl-model/src/main/java/kohl/hadrien/vtl/model/AbstractComponent.java:22 | `String.hashCode` is the base-31 polynomial over the string's UTF-16 units, wrapped to an int |
| Components.ArraysHash | java-vtl-model/src/main/java/kohl/hadrien/vtl/model/AbstractComponent.java:21-25 | `Arrays.hashCode` is the base-31 polynomial over 1 followed by the element hashes, wrapped to an int |
| Components.ArraysHashOfThree | java-vtl-model/src/main/java/kohl/hadrien/vtl/model/AbstractComponent.java:21-25 | the hash of three values is 31^3 + 31^2 h1 + 31 h2 + h3 wrapped to an int |
| Components.HashCode | java-vtl-model/src/main/java/kohl/hadrien/vtl/model/AbstractComponent.java:20-26 | the hash is that polynomial over the hashes of name, type and value, null hashing to 0 |
| Components.HashOfTriple | java-vtl-model/src/main/java/kohl/hadrien/vtl/model/AbstractComponent.java:20-26 | the hash reads nothing but the triple |
| Components.EqualsImpliesEqualHash | java-vtl-model/src/main/java/kohl/hadrien/vtl/model/AbstractComponent.java:20-35 | equal components have equal hashes |
| Components.StringHashExample | java-vtl-model/src/main/java/kohl/hadrien/vtl/model/AbstractComponent.java:22 | the hash of "m1" is 3428 |
| Components.SupplementaryHashExample | java-vtl-model/src/main/java/kohl/hadrien/vtl/model/AbstractComponent.java:22 | the hash of U+1D538, a surrogate pair in UTF-16, is 1772451 |
| JavaInts.Wrap32 | java-vtl-model/src/main/java/kohl/hadrien/vtl/model/AbstractComponent.java:21-25 | the wrapped value is an int congruent to the exact value modulo 2^32 |
| JavaInts.Wrap32Congruent | java-vtl-model/src/main/java/kohl/hadrien/vtl/model/AbstractComponent.java:21-25 | congruent values wrap to the same int |
| JavaInts.HashStepOfWrapped | java-vtl-model/src/main/java/kohl/hadrien/vtl/model/AbstractComponent.java:21-25 | wrapping the accumulator before a hash step changes nothing |
| JsText.Trim | java-vtl-documentation/docs/js/directives/vtl-dataset.js:29 | a trimmed string neither starts nor ends with white space |
| JsText.TrimIsInfix | java-vtl-documentation/docs/js/directives/vtl-dataset.js:29 | trim returns a contiguous piece of its argument |
| JsText.TrimIgnoresWhitespaceAffixes | java-vtl-documentation/docs/js/directives/vtl-dataset.js:29 | white space added around a string does not survive trim |
| JsText.TrimOfTrimmed | java-vtl-documentation/docs/js/directives/vtl-dataset.js:29 | trim leaves a string with non-white ends unchanged |
| JsText.TrimKeepsNonWhitespace | java-vtl-documentation/docs/js/directives/vtl-dataset.js:29 | every non-white character survives trim |
| JsText.TrimKeepsLacking | java-vtl-documentation/docs/js/directives/vtl-dataset.js:29 | trim never makes a string longer and adds no character it lacked |
| JsText.IndexOf | java-vtl-documentation/docs/js/directives/vtl-dataset.js:42 | the separator is found at the leftmost position where it occurs, or it does not occur |
| JsText.Split | java-vtl-documentation/docs/js/directives/vtl-dataset.js:42 | split gives at least one piece and no piece contains the separator |
| JsText.JoinSplit | java-vtl-documentation/docs/js/directives/vtl-dataset.js:42 | joining the pieces of a split with the separator gives the string back |
| JsText.SplitJoin | java-vtl-documentation/docs/js/directives/vtl-dataset.js:42 | splitting a join of pieces free of an unbordered separator gives the pieces back |
| JsText.LineBreak | java-vtl-documentation/docs/js/directives/vtl-dataset.js:30 | the leftmost `\n` or `\r\n`, with no line feed before it, or none when there is no line feed |
| JsText.SplitLines | java-vtl-documentation/docs/js/directives/vtl-dataset.js:30 | splitting on line breaks gives at least one line and no line holds a line feed |
| JsText.SplitLinesCount | java-vtl-documentation/docs/js/directives/vtl-dataset.js:30 | there is one more line than there are line feeds |
| JsText.SplitLinesWithoutCarriageReturn | java-vtl-documentation/docs/js/directives/vtl-dataset.js:30 | without carriage returns, the line split is the split on a line feed |
| JsNumber.ParseUnsignedDecimal | java-vtl-documentation/docs/js/directives/vtl-dataset.js:32 | a string read as a decimal consists of numeric characters only |
| JsNumber.ParseNonDecimal | java-vtl-documentation/docs/js/directives/vtl-dataset.js:32 | a string read as a hexadecimal, octal or binary literal consists of numeric characters only |
| JsNumber.ToNumber | java-vtl-documentation/docs/js/directives/vtl-dataset.js:32 | a string of white space converts to zero, and whatever converts to a number is made of numeric characters once trimmed |
| JsNumber.ParseTrimmed | java-vtl-documentation/docs/js/directives/vtl-dataset.js:32 | a trimmed string read as a number is made of numeric characters only |
| JsNumber.LessThanOne | java-vtl-documentation/docs/js/directives/vtl-dataset.js:32 | NaN is never below one, an infinity is below one exactly when it is negative, and a finite value exactly when it is negative or its exact magnitude is below one |
| JsNumber.IntegerTestIsValueBelowOne | java-vtl-documentation/docs/js/directives/vtl-dataset.js:32 | the integer comparison of a decimal with 1 agrees with its exact value being below one |
| JsNumber.ForeignCharIsNaN | java-vtl-documentation/docs/js/directives/vtl-dataset.js:32 | a non-white character outside the numeric alphabet makes the string NaN |
| JsNumber.EmptyIsBelowOne | java-vtl-documentation/docs/js/directives/vtl-dataset.js:32 | the empty string converts to zero |
| JsNumber.SmallExponentIsBelowOne | java-vtl-documentation/docs/js/directives/vtl-dataset.js:32 | "1e-3" compares below one |
| JsNumber.FiveIsNotBelowOne | java-vtl-documentation/docs/js/directives/vtl-dataset.js:32 | "5" does not compare below one |
| DatasetText.DotsToSpaces | java-vtl-documentation/docs/js/directives/vtl-dataset.js:29 | every dot becomes a space and every other character stays |
| DatasetText.LeadingBreaks | java-vtl-documentation/docs/js/directives/vtl-dataset.js:29 | the longest run of line breaks at the start |
| DatasetText.TrailingBreaks | java-vtl-documentation/docs/js/directives/vtl-dataset.js:29 | the longest run of line breaks at the end |
| DatasetText.ReplaceBreaksAndDots | java-vtl-documentation/docs/js/directives/vtl-dataset.js:29 | the replace leaves no dot, never lengthens the text, and on a text that starts and ends with something other than a line break it only turns dots into spaces |
| DatasetText.CleanText | java-vtl-documentation/docs/js/directives/vtl-dataset.js:29 | the cleaned text has no dot, is no longer than the text, and neither starts nor ends with white space |
| DatasetText.CleanTextIsTrimmedDotsToSpaces | java-vtl-documentation/docs/js/directives/vtl-dataset.js:29 | the cleaning replace followed by trim is trim of the text with dots made spaces |
| DatasetText.CleanIsTrimmedMiddle | java-vtl-documentation/docs/js/directives/vtl-dataset.js:29 | with content left, cleaning trims what lies between the leading and trailing break runs |
| DatasetText.Lines | java-vtl-documentation/docs/js/directives/vtl-dataset.js:30 | the cleaned text splits into one more line than it has line feeds, none holding a line feed |
| DatasetText.MatchAt | java-vtl-documentation/docs/js/directives/vtl-dataset.js:47 | a match at p has a non-empty name of characters other than comma and bracket, a role letter I, M or A, and a type word String or Number |
| DatasetText.MatchAtSound | java-vtl-documentation/docs/js/directives/vtl-dataset.js:47 | what the matcher returns is a match of the column pattern |
| DatasetText.MatchAtComplete | java-vtl-documentation/docs/js/directives/vtl-dataset.js:47 | any match of the pattern at p is the one the matcher returns |
| DatasetText.Exec | java-vtl-documentation/docs/js/directives/vtl-dataset.js:49 | a match found lies at or after the start position and is the pattern's match there |
| DatasetText.ExecIsLeftmost | java-vtl-documentation/docs/js/directives/vtl-dataset.js:49 | no position before the found match matches, and when none is found no position matches |
| DatasetText.ColumnOf | java-vtl-documentation/docs/js/directives/vtl-dataset.js:53-68 | the column keeps the matched name, its role is the one the role letter names, and its type is `java.lang.` followed by the matched type word |
| DatasetText.ParseColumn | java-vtl-documentation/docs/js/directives/vtl-dataset.js:49-68 | a parsed column has a non-empty name free of comma and bracket and a type "java.lang.String" or "java.lang.Number" |
| DatasetText.Collect | java-vtl-documentation/docs/js/directives/vtl-dataset.js:48-69 | either every cell parsed and the columns are their values in order, or the error is the first cell that did not |
| DatasetText.FirstWrongWidth | java-vtl-documentation/docs/js/directives/vtl-dataset.js:71-74 | either every row has the header's width, or the result is the first row that does not |
| DatasetText.NoHeaderGuard | java-vtl-documentation/docs/js/directives/vtl-dataset.js:32 | with two or more lines the guard never fires; with one line it fires exactly when that line converts to a number below one |
| DatasetText.JoinedLinesAreNaN | java-vtl-documentation/docs/js/directives/vtl-dataset.js:32 | two or more lines joined with commas convert to NaN |
| DatasetText.CreateDataset | java-vtl-documentation/docs/js/directives/vtl-dataset.js:28-83 | the result carries the name given; it fails with "no header found" exactly when the guard fires; it has one data row per line after the header |
| DatasetText.FromLines | java-vtl-documentation/docs/js/directives/vtl-dataset.js:32-34 | the guard decides "no header found"; otherwise the first line is the header and the rest are the rows |
| DatasetText.ParseLines | java-vtl-documentation/docs/js/directives/vtl-dataset.js:36-82 | on success one column per header cell, each that cell's parse, and one row per line, each that line's cells with the header's width; on failure the first unmatched cell, every cell before it parsed, or, only once every header cell parsed, the first row of the wrong width, every row before it of the header's width |
| DatasetText.ParseHeader | java-vtl-documentation/docs/js/directives/vtl-dataset.js:48-69 | either every header cell names a column and the columns are their parses in order, or the error is the first cell that names none |
| DatasetText.ParseRows | java-vtl-documentation/docs/js/directives/vtl-dataset.js:71-82 | either every row has the structure's width and the rows are the lines' cells in order under the given name and structure, or the error is the first row of another width |
| DatasetText.DotsOnlyCleansToEmpty | java-vtl-documentation/docs/js/directives/vtl-dataset.js:29 | a text of dots and line breaks cleans to the empty string |
| DatasetText.DotsOnlyHasNoHeader | java-vtl-documentation/docs/js/directives/vtl-dataset.js:29-33 | a text of dots and line breaks fails with "no header found" |
| DatasetRender.HeaderCellsOfLine | java-vtl-documentation/docs/js/directives/vtl-dataset.js:42 | splitting a written header line on `],` gives back the written cells |
| DatasetRender.RowCellsOfLine | java-vtl-documentation/docs/js/directives/vtl-dataset.js:72 | trimming and splitting a written row line on commas gives back the row |
| DatasetRender.ParseColumnText | java-vtl-documentation/docs/js/directives/vtl-dataset.js:47-68 | a written header cell, with or without its closing bracket, parses back to its column |
| DatasetRender.RenderTextIsClean | java-vtl-documentation/docs/js/directives/vtl-dataset.js:29 | cleaning leaves a written text unchanged |
| DatasetRender.LinesOfRenderText | java-vtl-documentation/docs/js/directives/vtl-dataset.js:29-30 | a written text splits back into its written lines |
| DatasetRender.HeaderPassesGuard | java-vtl-documentation/docs/js/directives/vtl-dataset.js:32-33 | written lines never trip the no-header guard |
| DatasetRender.FromLinesOfTextLines | java-vtl-documentation/docs/js/directives/vtl-dataset.js:32-82 | the written lines parse back to the dataset |
| DatasetRender.CreateDatasetOfRenderText | java-vtl-documentation/docs/js/directives/vtl-dataset.js:28-83 | `createDataset` of a written dataset is that dataset |

## Left out

- `getOrSortData`, `createCompatibleOrder`, `computePredicate`, `adjustOrderForStructure` and `getComponentMapping` are parameters. They say what each call returns, or where it throws. Their bodies are not shown.
- The bodies of `OuterJoinSpliterator`, `OuterJoinMerger` and `JoinKeyExtractor` are left out, so no merge semantics are modelled. A join is a term that records its inputs, keys, predicate and merger dataset.
- The `Closer` class is not part of this model. Its close is taken to close the registered streams last registered first, and a second close is a no-op. What closing throws is one optional parameter: an `IOException` or an unchecked exception. It is thrown only when at least one stream was registered.
- A close failure is the same whichever closer is closed and however often, because it is one parameter per call.
- These steps are taken not to throw:
  - `createCompatibleOrder`;
  - `iterator.next()`, except on an empty dataset map;
  - `originals.add(original)` and `closer.register`;
  - attaching `onClose` and constructing `VtlStream`.
- The other steps of `computeData` can throw in the model:
  - `computePredicate`;
  - `getComponentMapping`;
  - adjusting the order and opening each source;
  - the capacity expander step at lines 123-124 between opening the first stream and registering it;
  - building each join.
- A throw in the expander step leaves the first stream open and unregistered, so the catch block's close does not close it.
- Stream laziness, `peek` and spliterators are left out: streams are terms.
- OuterJoin.JoinScope: the `Set` and `Map` iteration orders are given as sequences. The scope is a map, so a name shared by two identifiers keeps the later one.
- AggregationVisitor's own code is not part of this model. The sum semantics are taken from the test's assertions.
- Aggregation.SumOf: on the test's already-grouped rows, runs and groups coincide. Grouping by consecutive runs is the model's choice. `RunsOfGrouped` proves the two agree on grouped input.
- Aggregation.SumOfOnlyMeasure: the failure for a dataset with no measure is assumed. The test only shows the failure for two measures, and no shown source pins down the zero-measure case.
- Aggregation.SumOf: the sums are unbounded integers and do not model `Long` overflow. Values are compared structurally, and rows hold no `null`.
- Components.Equals: `Objects.equals` on the values defers to the value's own `equals`. The model compares values structurally, so value equality is taken to be a well-behaved equivalence. `EqualsSymmetric` and `EqualsTransitive` rest on that.
- Components.HashCode: the hash of the type and the hash of the value are parameters. The type is a `Class`, whose identity hash is not determined.
- JsText.IsWhitespace covers the ECMAScript white space and line terminators, one `char` each. UTF-16 surrogate pairs are not special.
- JsNumber.ToNumber keeps values exact and does not model binary64 rounding. This does not change any comparison with 1 except for literals that round across 1, such as "0.99999999999999999999". For those, `LessThanOne` gives the exact answer where JavaScript would give the rounded one.
- The Angular `link` and transclusion code in `vtl-dataset.js` is left out, because it is DOM and UI wiring.
- `AssignmentVisitor` is left out: it is delegation glue.
- `FunctionCallParserTest` is left out: it checks a grammar that is not shown.
- `AbstractComponent.toString` is left out: it is formatting only.
