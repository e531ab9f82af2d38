# java-vtl core, modelled in Dafny

This project models five parts of java-vtl, an engine for the Validation and
Transformation Language (VTL), and proves properties of them:

- The join machinery (`no.ssb.vtl.script.operations.join`):
  - `JoinKeyExtractor` resolves the key components of an `Order` to column
    positions of a child structure once. It then copies those columns out of
    each row into a reused buffer and returns a copy of the buffer.
  - `InnerJoinMerger` pairs every right-hand component with the equal
    left-hand components. It then overwrites those slots of the left row, in
    place, with the right row's values. A right-hand value with no equal
    left-hand component is not copied.
- `FilterOperation` keeps the child rows whose predicate resolves to true, in
  the child's order. A null predicate value drops the row. A non-Boolean value
  fails the stream with a `ClassCastException`. Filter and order push-down are
  refused.
- The `upper` string function `VTLUpper`: null counts as "", the result is
  upper-cased, and the function object is a lazily created singleton.
- The legacy model (`kohl.hadrien`):
  - `AbstractComponent.equals` and `hashCode` work over the (name, type,
    value) triple and ignore the role.
  - `DataStructure` lists its identifiers, then its measures.
- The documentation site's `vtl-dataset` directive parses a dataset written as
  text and appends it to the scope's `addTo` list. The text is a header of
  `name[I|M|A,String|Number]` cells separated by `],`, followed by
  comma-separated rows.

Java's null references become `Option`. Thrown exceptions become `Result`
failures. DataPoints, the rows of values, are Dafny arrays wherever the source
mutates them in place. The join code compares components with `equals`. It is
generic over the component type, and equality is Dafny's `==`.

Files:
- `wrappers.dfy`, `exceptions.dfy`, `values.dfy` and `lists.dfy` hold the
  shared types and `List.indexOf`.
- Each of the other files models one source file.

## Model

Source paths are relative to the repository root.

| member | source | states |
|---|---|---|
| Exceptions.CheckNotNull | java-vtl-script/src/main/java/no/ssb/vtl/script/operations/filter/FilterOperation.java:50-52 | Guava's `checkNotNull` succeeds exactly for a non-null reference and returns it; otherwise it fails with a NullPointerException carrying the given message |
| Lists.IndexOf | java-vtl-script/src/main/java/no/ssb/vtl/script/operations/join/JoinKeyExtractor.java:86-87 | `indexOf` is -1 exactly when the element is absent; otherwise it is the first position holding the element |
| Lists.IndexOfDistinct | java-vtl-script/src/main/java/no/ssb/vtl/script/operations/join/JoinKeyExtractor.java:84-88 | in the duplicate-free key list of an Order, `toList.indexOf(k)` is k's own position, so each `add(at, x)` appends |
| KeyExtraction.ChildIndex | java-vtl-script/src/main/java/no/ssb/vtl/script/operations/join/JoinKeyExtractor.java:87 | the child index is non-negative exactly when the mapper gives a component of the child structure, and then names that component's column |
| KeyExtraction.BuildIndices | java-vtl-script/src/main/java/no/ssb/vtl/script/operations/join/JoinKeyExtractor.java:81-89 | the index loop yields one index per key component, in key order, each the child column of the mapped component (or -1) |
| KeyExtraction.ToArray | java-vtl-script/src/main/java/no/ssb/vtl/script/operations/join/JoinKeyExtractor.java:91 | `Ints.toArray` gives a fresh array with the list's contents |
| KeyExtraction.JoinKeyExtractor.constructor | java-vtl-script/src/main/java/no/ssb/vtl/script/operations/join/JoinKeyExtractor.java:40-45 | with the identity mapper, index i is `childStructure.indexOf(order[i])`; the buffer has one slot per key component |
| KeyExtraction.JoinKeyExtractor.WithMapping | java-vtl-script/src/main/java/no/ssb/vtl/script/operations/join/JoinKeyExtractor.java:55-61 | with `mapping::get`, index i is the child column of `mapping[order[i]]`, and -1 for a key the map lacks |
| KeyExtraction.JoinKeyExtractor.WithMapper | java-vtl-script/src/main/java/no/ssb/vtl/script/operations/join/JoinKeyExtractor.java:64-93 | the general constructor stores one index per key component, computed through the given mapper |
| KeyExtraction.JoinKeyExtractor.Apply | java-vtl-script/src/main/java/no/ssb/vtl/script/operations/join/JoinKeyExtractor.java:95-101 | succeeds exactly when every key column lies inside the row, and otherwise throws IndexOutOfBounds; on success the buffer and the fresh returned copy both hold the row's key columns in key order |
| KeyExtraction.IdentityKeyAt | java-vtl-script/src/main/java/no/ssb/vtl/script/operations/join/JoinKeyExtractor.java:84-101 | with the identity mapper, key slot i holds the row's value in the column whose component is key component i |
| KeyExtraction.ResolvesFits | java-vtl-script/src/main/java/no/ssb/vtl/script/operations/join/JoinKeyExtractor.java:84-99 | for rows as wide as the child structure, every key position lies inside the row exactly when every key component maps to a component of the child structure; then no index is -1 and `dataPoint.get` cannot throw |
| KeyExtraction.Mapped | java-vtl-script/src/main/java/no/ssb/vtl/script/operations/join/JoinKeyExtractor.java:74 | the child's components passed one by one through the mapper, in order |
| KeyExtraction.IdentityCheckResolves | java-vtl-script/src/main/java/no/ssb/vtl/script/operations/join/JoinKeyExtractor.java:74-78 | with the identity mapper, the commented-out `mapped.containsAll(toList)` check holds exactly when every key resolves |
| KeyExtraction.LookupCheckDiffers | java-vtl-script/src/main/java/no/ssb/vtl/script/operations/join/JoinKeyExtractor.java:74-78 | with a lookup mapper the commented-out check and key resolution differ: a key can resolve while the check would refuse it |
| KeyExtraction.ExtractTwice | java-vtl-script/src/main/java/no/ssb/vtl/script/operations/join/JoinKeyExtractor.java:95-101 | two extractions through one shared buffer return distinct arrays, each holding its own row's key |
| JoinMerge.BuildIndices | java-vtl-script/src/main/java/no/ssb/vtl/script/operations/join/InnerJoinMerger.java:42-55 | the nested loops produce exactly the (right, left) position pairs of equal components, in increasing (right, left) order |
| JoinMerge.IndexMapUnique | java-vtl-script/src/main/java/no/ssb/vtl/script/operations/join/InnerJoinMerger.java:42-55 | that characterization determines the index map: two entry lists meeting it are equal |
| JoinMerge.Overlay | java-vtl-script/src/main/java/no/ssb/vtl/script/operations/join/InnerJoinMerger.java:59-64 | copying right values into the left row, entry by entry, keeps the left row's length |
| JoinMerge.SelfOverlay | java-vtl-script/src/main/java/no/ssb/vtl/script/operations/join/InnerJoinMerger.java:59-64 | the same copying with left and right one row keeps its length |
| JoinMerge.OverlayAt | java-vtl-script/src/main/java/no/ssb/vtl/script/operations/join/InnerJoinMerger.java:59-64 | slot j of the merged row is the right value of the last entry targeting j, or the old left value when no entry does |
| JoinMerge.OverlayUntouched | java-vtl-script/src/main/java/no/ssb/vtl/script/operations/join/InnerJoinMerger.java:59-64 | left slots with no matching right component keep their value |
| JoinMerge.OverlayIdempotent | java-vtl-script/src/main/java/no/ssb/vtl/script/operations/join/InnerJoinMerger.java:59-64 | merging the same right row twice gives what merging once gives |
| JoinMerge.OverlayMatched | java-vtl-script/src/main/java/no/ssb/vtl/script/operations/join/InnerJoinMerger.java:42-64 | when the right structure has no duplicate component, each matched left slot receives the value of its own right counterpart |
| JoinMerge.SelfOverlayDiagonal | java-vtl-script/src/main/java/no/ssb/vtl/script/operations/join/InnerJoinMerger.java:59-64 | entries that copy each slot onto itself leave a self-merged row unchanged |
| JoinMerge.SelfMergeUnchanged | java-vtl-script/src/main/java/no/ssb/vtl/script/operations/join/InnerJoinMerger.java:42-64 | merging a row into itself, when both structures are the same duplicate-free structure, leaves the row unchanged |
| JoinMerge.InnerJoinMerger.constructor | java-vtl-script/src/main/java/no/ssb/vtl/script/operations/join/InnerJoinMerger.java:33-40 | keeps both structures and an index map meeting the characterization of `buildIndices` |
| JoinMerge.InnerJoinMerger.Apply | java-vtl-script/src/main/java/no/ssb/vtl/script/operations/join/InnerJoinMerger.java:59-64 | returns `left` itself, now holding the overlay of the right row; when `left` and `right` are the same row, each copy reads the row as the earlier copies left it |
| JoinMerge.NewInnerJoinMerger | java-vtl-script/src/main/java/no/ssb/vtl/script/operations/join/InnerJoinMerger.java:33-35 | a null structure throws a NullPointerException without a message; otherwise it gives a valid merger over the two structures |
| Filter.NewFilterOperation | java-vtl-script/src/main/java/no/ssb/vtl/script/operations/filter/FilterOperation.java:49-53 | succeeds exactly when dataset, predicate and bindings are all non-null. A null dataset fails first, with "the dataset was null"; a null predicate or null bindings fail with no message |
| Filter.ComputeDataStructure | java-vtl-script/src/main/java/no/ssb/vtl/script/operations/filter/FilterOperation.java:55-57 | the filter's structure is its child's, unchanged |
| Filter.Keep | java-vtl-script/src/main/java/no/ssb/vtl/script/operations/filter/FilterOperation.java:64-67 | a row is kept exactly when its predicate is Boolean true; the decision fails with ClassCast exactly when the value is neither null nor Boolean |
| Filter.Filtered | java-vtl-script/src/main/java/no/ssb/vtl/script/operations/filter/FilterOperation.java:60-70 | the filtered stream yields no more rows than the child |
| Filter.FilteredStep | java-vtl-script/src/main/java/no/ssb/vtl/script/operations/filter/FilterOperation.java:62-68 | the traversal from row i either fails at row i with that row's exception and yields nothing, or yields row i when it is kept, followed by the traversal from row i + 1 |
| Filter.ComputeData | java-vtl-script/src/main/java/no/ssb/vtl/script/operations/filter/FilterOperation.java:59-70 | the row loop, which rebinds one binding object per row, yields exactly the filtered stream with its failure |
| Filter.GetSize | java-vtl-script/src/main/java/no/ssb/vtl/script/operations/filter/FilterOperation.java:77-80 | no size is reported |
| Filter.GetDistinctValuesCount | java-vtl-script/src/main/java/no/ssb/vtl/script/operations/filter/FilterOperation.java:72-75 | no distinct-value counts are reported |
| Filter.UnsupportedFiltering | java-vtl-script/src/main/java/no/ssb/vtl/script/operations/filter/FilterOperation.java:83-86 | always throws UnsupportedOperationException("TODO") |
| Filter.UnsupportedOrdering | java-vtl-script/src/main/java/no/ssb/vtl/script/operations/filter/FilterOperation.java:88-91 | always throws UnsupportedOperationException("TODO") |
| Filter.FilteredSound | java-vtl-script/src/main/java/no/ssb/vtl/script/operations/filter/FilterOperation.java:62-68 | every yielded row is a child row whose predicate is true, so a null predicate never lets a row through |
| Filter.FilteredComplete | java-vtl-script/src/main/java/no/ssb/vtl/script/operations/filter/FilterOperation.java:62-68 | a traversal that does not fail yields every child row whose predicate is true |
| Filter.FilteredCount | java-vtl-script/src/main/java/no/ssb/vtl/script/operations/filter/FilterOperation.java:62-68 | when the traversal completes, each row occurs in the output exactly as often as in the child if its predicate is true, and not at all otherwise |
| Filter.FilteredInOrder | java-vtl-script/src/main/java/no/ssb/vtl/script/operations/filter/FilterOperation.java:62-68 | the yielded rows are a subsequence of the child's rows, so the child's order is kept |
| Filter.FilteredFails | java-vtl-script/src/main/java/no/ssb/vtl/script/operations/filter/FilterOperation.java:64-67 | the traversal fails exactly when some row's predicate is neither null nor Boolean, and then with ClassCast |
| Filter.PrependConcat | java-vtl-script/src/main/java/no/ssb/vtl/script/operations/filter/FilterOperation.java:62-68 | deciding one more row in front commutes with reading a second stream after the first |
| Filter.FilteredUnfold | java-vtl-script/src/main/java/no/ssb/vtl/script/operations/filter/FilterOperation.java:62-68 | filtering a non-empty stream decides its first row and then filters the rest |
| Filter.FilteredAppend | java-vtl-script/src/main/java/no/ssb/vtl/script/operations/filter/FilterOperation.java:62-68 | the stream is consumed row by row: filtering a concatenation is the first part's filtered stream followed, unless it failed, by the second part's rows and failure |
| Filter.FilterIdempotent | java-vtl-script/src/main/java/no/ssb/vtl/script/operations/filter/FilterOperation.java:62-68 | filtering the output again with the same predicate yields it unchanged and without failure |
| Filter.FilterPreservesArity | java-vtl-script/src/main/java/no/ssb/vtl/script/operations/filter/FilterOperation.java:55-68 | rows that fit the child's structure still fit the filter's structure |
| LegacyComponent.Equals | java-vtl-model/src/main/java/kohl/hadrien/vtl/model/AbstractComponent.java:32-39 | null gives false; an object that is not a Component fails the cast (the class check is commented out); a Component is equal exactly when name, type and value are equal |
| LegacyComponent.Int32 | java-vtl-model/src/main/java/kohl/hadrien/vtl/model/AbstractComponent.java:23-29 | Java `int` arithmetic: the result is in the 32-bit range and congruent to the exact value modulo 2^32 |
| LegacyComponent.StringHash | java-vtl-model/src/main/java/kohl/hadrien/vtl/model/AbstractComponent.java:23-29 | `String.hashCode` of the name stays in the `int` range |
| LegacyComponent.ArraysHash | java-vtl-model/src/main/java/kohl/hadrien/vtl/model/AbstractComponent.java:23-29 | `Arrays.hashCode`, which `Objects.hash` uses, stays in the `int` range |
| LegacyComponent.HashCode | java-vtl-model/src/main/java/kohl/hadrien/vtl/model/AbstractComponent.java:23-29 | `Objects.hash(name, type, value)` stays in the `int` range |
| LegacyComponent.EqualsReflexive | java-vtl-model/src/main/java/kohl/hadrien/vtl/model/AbstractComponent.java:32-39 | every component equals itself |
| LegacyComponent.EqualsSymmetric | java-vtl-model/src/main/java/kohl/hadrien/vtl/model/AbstractComponent.java:32-39 | equality between components is symmetric |
| LegacyComponent.EqualsTransitive | java-vtl-model/src/main/java/kohl/hadrien/vtl/model/AbstractComponent.java:32-39 | equality between components is transitive |
| LegacyComponent.RoleIgnored | java-vtl-model/src/main/java/kohl/hadrien/vtl/model/AbstractComponent.java:32-39 | components differing only in role are equal |
| LegacyComponent.HashConsistent | java-vtl-model/src/main/java/kohl/hadrien/vtl/model/AbstractComponent.java:22-39 | equal components have equal hash codes |
| LegacyComponent.Int32Step | java-vtl-model/src/main/java/kohl/hadrien/vtl/model/AbstractComponent.java:23-29 | reducing the running hash to `int` before the next `31 * h + e` step gives the same `int` as reducing once at the end |
| LegacyComponent.ArraysHashClosedForm | java-vtl-model/src/main/java/kohl/hadrien/vtl/model/AbstractComponent.java:23-29 | `Arrays.hashCode` computed step by step in `int` is the reduction of the exact polynomial 31^n + ... over the element hashes |
| LegacyComponent.HashCodeClosedForm | java-vtl-model/src/main/java/kohl/hadrien/vtl/model/AbstractComponent.java:23-29 | `hashCode()` is (31^3 + 31^2 a + 31 b + d) reduced to `int`, where a, b and d are the hashes of name, type and value (0 for null) |
| LegacyComponent.StringHashClosedForm | java-vtl-model/src/main/java/kohl/hadrien/vtl/model/AbstractComponent.java:23-29 | `String.hashCode` computed step by step is the documented s[0]*31^(n-1) + ... + s[n-1] reduced to `int` |
| LegacyDataStructure.NewDataStructure | java-vtl-model/src/main/java/kohl/hadrien/DataStructure.java:15-22 | a null identifier list fails with "identifier list was null", before the measures are checked; a null measure list fails with "measure list was null"; a null element in either list fails with a NullPointerException from the copy; otherwise the variables are the identifiers' elements followed by the measures' |
| LegacyDataStructure.IdentifiersBeforeMeasures | java-vtl-model/src/main/java/kohl/hadrien/DataStructure.java:15-22 | for lists without null elements, the variables split exactly into the identifiers, then the measures |
| Upper.UpperChar | java-vtl-script/src/main/java/no/ssb/vtl/script/functions/string/VTLUpper.java:44 | lower-case letters move to upper case and every other character is unchanged |
| Upper.ToUpperCase | java-vtl-script/src/main/java/no/ssb/vtl/script/functions/string/VTLUpper.java:44 | upper-casing keeps the length |
| Upper.SafeInvoke | java-vtl-script/src/main/java/no/ssb/vtl/script/functions/string/VTLUpper.java:42-45 | a null argument gives "" and any other gives its upper case; the result is never null |
| Upper.ToUpperCaseAt | java-vtl-script/src/main/java/no/ssb/vtl/script/functions/string/VTLUpper.java:44 | each result character is the upper case of the argument's character at the same position |
| Upper.NoLowerCaseLeft | java-vtl-script/src/main/java/no/ssb/vtl/script/functions/string/VTLUpper.java:44 | the result holds no lower-case letter |
| Upper.ToUpperCaseIdempotent | java-vtl-script/src/main/java/no/ssb/vtl/script/functions/string/VTLUpper.java:44 | upper-casing twice equals upper-casing once |
| Upper.VTLUpper.constructor | java-vtl-script/src/main/java/no/ssb/vtl/script/functions/string/VTLUpper.java:37-39 | the function is named "upper", returns a VTLString and declares the single argument "value" of type VTLString |
| Upper.InstanceHolder.constructor | java-vtl-script/src/main/java/no/ssb/vtl/script/functions/string/VTLUpper.java:28 | the static instance starts out null |
| Upper.InstanceHolder.GetInstance | java-vtl-script/src/main/java/no/ssb/vtl/script/functions/string/VTLUpper.java:30-35 | the first call creates a fresh "upper" function and stores it; later calls return the stored one |
| Upper.GetInstanceTwice | java-vtl-script/src/main/java/no/ssb/vtl/script/functions/string/VTLUpper.java:30-35 | two calls return the same object |
| DatasetDirective.DotsToSpaces | java-vtl-documentation/docs/js/directives/vtl-dataset.js:31 | every '.' becomes a space and every other character is kept, position by position |
| DatasetDirective.ReplaceRunsAndDots | java-vtl-documentation/docs/js/directives/vtl-dataset.js:31 | the global replace leaves no '.', never lengthens the text, and empties only the empty text |
| DatasetDirective.Trim | java-vtl-documentation/docs/js/directives/vtl-dataset.js:31 | the trimmed text is no longer than the input and is empty or neither starts nor ends with JavaScript white space |
| DatasetDirective.Preprocess | java-vtl-documentation/docs/js/directives/vtl-dataset.js:31 | after the replace and the trim no '.' is left, the text neither starts nor ends with white space, and it is no longer than the content |
| DatasetDirective.ReplaceMiddle | java-vtl-documentation/docs/js/directives/vtl-dataset.js:31 | the replace of a text that is not all line breaks leaves no '.', is not empty and is no longer than the text |
| DatasetDirective.TrimInfix | java-vtl-documentation/docs/js/directives/vtl-dataset.js:31 | the text is white space, then its trimmed text, then white space |
| DatasetDirective.TrimUnique | java-vtl-documentation/docs/js/directives/vtl-dataset.js:31 | a text made of white space, a part with no white space at either end, and white space trims to that part |
| DatasetDirective.TrimAround | java-vtl-documentation/docs/js/directives/vtl-dataset.js:31 | white space added at either end of a text does not change its trim |
| DatasetDirective.PreprocessIsTrimDots | java-vtl-documentation/docs/js/directives/vtl-dataset.js:31 | the replace followed by the trim equals the trim of the text with every '.' turned into a space |
| DatasetDirective.TrimmedBelowOne | java-vtl-documentation/docs/js/directives/vtl-dataset.js:34 | `Number(t) < 1` of trimmed text holds for the empty string, which reads as 0 |
| DatasetDirective.NumberBelowOne | java-vtl-documentation/docs/js/directives/vtl-dataset.js:34 | `lines < 1` holds for text that is empty after the trim, and holds only for text made of letters, digits, '_', '+' and '-' |
| DatasetDirective.DecimalZero | java-vtl-documentation/docs/js/directives/vtl-dataset.js:34 | a run of decimal digits has value 0 exactly when every digit is '0' |
| DatasetDirective.DigitsBelowOne | java-vtl-documentation/docs/js/directives/vtl-dataset.js:34 | a plain run of decimal digits converts to a number below 1 exactly when all its digits are '0' |
| DatasetDirective.Split | java-vtl-documentation/docs/js/directives/vtl-dataset.js:44 | `split` with a string separator yields at least one part |
| DatasetDirective.SplitLines | java-vtl-documentation/docs/js/directives/vtl-dataset.js:32 | `split(/\r\n\|\n/)` yields at least one line |
| DatasetDirective.MatchAt | java-vtl-documentation/docs/js/directives/vtl-dataset.js:49-51 | a match whose '[' is at a given position has role I, M or A and type String or Number |
| DatasetDirective.ExecFrom | java-vtl-documentation/docs/js/directives/vtl-dataset.js:49-51 | the leftmost match has role I, M or A and type String or Number |
| DatasetDirective.ExecColumn | java-vtl-documentation/docs/js/directives/vtl-dataset.js:49-51 | what `columnRegex.exec(cell)` returns, when not null, has role I, M or A and type String or Number |
| DatasetDirective.RoleName | java-vtl-documentation/docs/js/directives/vtl-dataset.js:55-62 | role letter I, M, A becomes IDENTIFIER, MEASURE, ATTRIBUTE respectively, each in both directions |
| DatasetDirective.ToColumn | java-vtl-documentation/docs/js/directives/vtl-dataset.js:55-70 | the pushed column carries the name group, and the type "java.lang." followed by the type group |
| DatasetDirective.HeaderColumns | java-vtl-documentation/docs/js/directives/vtl-dataset.js:50-71 | one column per header cell |
| DatasetDirective.RowCells | java-vtl-documentation/docs/js/directives/vtl-dataset.js:73-82 | one cell list per row line |
| DatasetDirective.Parsed | java-vtl-documentation/docs/js/directives/vtl-dataset.js:31-82 | a successful parse keeps the directive's name, has one column per '],'-separated header cell (at least one) and one row per line after the header |
| DatasetDirective.ParseHeader | java-vtl-documentation/docs/js/directives/vtl-dataset.js:44-71 | the header loop succeeds exactly when every '],'-separated cell matches, and then pushes one column per cell, in order |
| DatasetDirective.ParseRows | java-vtl-documentation/docs/js/directives/vtl-dataset.js:73-82 | the row loop succeeds exactly when every line splits on ',' into as many cells as the header has columns, and then pushes those cells |
| DatasetDirective.ParseDataset | java-vtl-documentation/docs/js/directives/vtl-dataset.js:31-82 | preprocessing, the `lines < 1` test, the header and the rows give exactly the declarative parse: the dataset, or the first error thrown |
| DatasetDirective.Scope.constructor | java-vtl-documentation/docs/js/directives/vtl-dataset.js:11-15 | the scope carries the optional `name` and the bound `addTo` |
| DatasetDirective.LinkFunction | java-vtl-documentation/docs/js/directives/vtl-dataset.js:21-88 | `addTo` is always defined afterwards. Empty content adds nothing. A successful parse appends the dataset to the previous list (or to []). A thrown error leaves the list defaulted but unextended |
| DatasetDirective.SplitJoin | java-vtl-documentation/docs/js/directives/vtl-dataset.js:74-79 | joining the parts of a split with the separator gives the text back |
| DatasetDirective.SplitPartsFree | java-vtl-documentation/docs/js/directives/vtl-dataset.js:44 | no part of a split contains the separator |
| DatasetDirective.SplitLinesJoin | java-vtl-documentation/docs/js/directives/vtl-dataset.js:32 | for a text without '\r', joining its lines with "\n" gives the text back |
| DatasetDirective.LinesHaveNoNewline | java-vtl-documentation/docs/js/directives/vtl-dataset.js:32 | no line contains '\n' |
| DatasetDirective.MatchAtParts | java-vtl-documentation/docs/js/directives/vtl-dataset.js:49 | a match at a position spells out the name, '[', the role letter, ',' and the type at the positions the pattern gives them |
| DatasetDirective.MatchAtSound | java-vtl-documentation/docs/js/directives/vtl-dataset.js:49 | a match is the text `name[R,Type` at the start of a whole word run, with R in I/M/A and Type in String/Number |
| DatasetDirective.ExecSound | java-vtl-documentation/docs/js/directives/vtl-dataset.js:49-51 | what `exec` returns is such a match, and no earlier '[' starts one |
| DatasetDirective.WordStartAt | java-vtl-documentation/docs/js/directives/vtl-dataset.js:49 | the `\w+` run ending before a '[' starts right after the last non-word character |
| DatasetDirective.MatchAtComplete | java-vtl-documentation/docs/js/directives/vtl-dataset.js:49-51 | every `name[R,Type` starting a word run is the match at its '[' |
| DatasetDirective.ExecComplete | java-vtl-documentation/docs/js/directives/vtl-dataset.js:49-51 | a match at or after a position means `exec` from there finds one |
| DatasetDirective.ExecColumnFinds | java-vtl-documentation/docs/js/directives/vtl-dataset.js:49-53 | `exec` finds a match exactly when some `name[R,Type` starts a word run in the cell; otherwise `cell.length` throws on null |
| DatasetDirective.EmptyTextNoHeader | java-vtl-documentation/docs/js/directives/vtl-dataset.js:31-35 | content that preprocessing empties throws "no header found" |
| DatasetDirective.UnsignedNumeral | java-vtl-documentation/docs/js/directives/vtl-dataset.js:34 | an unsigned decimal numeral consists only of letters, digits and signs |
| DatasetDirective.TrimmedNumeral | java-vtl-documentation/docs/js/directives/vtl-dataset.js:34 | a trimmed text that reads as a number below 1, signed or hexadecimal, octal or binary, consists only of numeral characters |
| DatasetDirective.BracketNotBelowOne | java-vtl-documentation/docs/js/directives/vtl-dataset.js:34 | a text whose trimmed form holds '[' never passes the `lines < 1` test |
| DatasetDirective.TrimKeeps | java-vtl-documentation/docs/js/directives/vtl-dataset.js:31 | trimming keeps every character that is not white space |
| DatasetDirective.TrimSubset | java-vtl-documentation/docs/js/directives/vtl-dataset.js:31 | trimming only removes characters |
| DatasetDirective.MatchedCellHasBracket | java-vtl-documentation/docs/js/directives/vtl-dataset.js:49-51 | a cell the column pattern matches holds a '[' |
| DatasetDirective.SplitFirstIsPrefix | java-vtl-documentation/docs/js/directives/vtl-dataset.js:44 | the first part of a split is a prefix of the text |
| DatasetDirective.JoinFirstIsPrefix | java-vtl-documentation/docs/js/directives/vtl-dataset.js:34 | the first line is a prefix of the lines joined with ',', the string the `lines < 1` comparison converts |
| DatasetDirective.MatchingHeaderIsNotNumeric | java-vtl-documentation/docs/js/directives/vtl-dataset.js:34-51 | a text whose header cells all match never throws "no header found" |
| DatasetDirective.ParsedOutcome | java-vtl-documentation/docs/js/directives/vtl-dataset.js:31-82 | when the header cells all match, the parse succeeds with the header's columns and the rows' cells if every row has the header's width, and fails with "row size inconsistent with header" otherwise |
| DatasetDirective.ParsedParts | java-vtl-documentation/docs/js/directives/vtl-dataset.js:31-82 | a successful parse has a header line whose cells all match and give the columns, and remaining lines that fit the header and give the rows |
| DatasetDirective.HeaderColumnsShape | java-vtl-documentation/docs/js/directives/vtl-dataset.js:49-71 | each column built from a matching header cell has a non-empty name, a role among IDENTIFIER/MEASURE/ATTRIBUTE and a type "java.lang." + String or Number |
| DatasetDirective.ParsedColumnAt | java-vtl-documentation/docs/js/directives/vtl-dataset.js:49-70 | column i of a parsed dataset comes from header cell i: the cell holds `name[R,Type` of the match, and the column has that name, R's role name and "java.lang." + Type |
| DatasetDirective.RowCellsRoundTrip | java-vtl-documentation/docs/js/directives/vtl-dataset.js:73-82 | each line that fits becomes a row of exactly `width` cells, and joining them with ',' gives the line back |
| DatasetDirective.ParsedRowsRoundTrip | java-vtl-documentation/docs/js/directives/vtl-dataset.js:73-82 | a parsed dataset keeps every line after the header. Each row has as many cells as the header, and joining them with ',' gives the line back |
| DatasetDirective.DotsRemoved | java-vtl-documentation/docs/js/directives/vtl-dataset.js:31 | replacing each '.' by a space leaves none |

## Left out

- KeyExtraction.JoinKeyExtractor.Apply: the components of a `DataPoint` other than its values are not modelled. The row handed in is never the extractor's private buffer, so `requires dataPoint != buffer` only states what privacy guarantees.
- KeyExtraction.JoinKeyExtractor.Apply: when a key column is out of range, the slots of the buffer written before the throw are not described.
- JoinMerge.InnerJoinMerger.Apply: requires each row to be as wide as its structure. The merger is only handed rows built for the structures it was made for. An index beyond a shorter row would make `get`/`set` throw; that path is not modelled.
- `no.ssb.vtl.model.Component.equals` is not part of this model. The join modules compare components with Dafny's `==`.
- `DataPointBindings` and `VTLExpression.resolve` are not part of this model. The filter's predicate is a function from a row to a value. The component bindings are carried but not interpreted.
- Filter.ComputeData: the laziness of `Stream` is modelled as one complete traversal. A failing row ends the traversal, and the rows yielded before it are kept. Partial consumption by a caller is not modelled.
- The ordering, filtering and component arguments of `computeData` are accepted and ignored, as in the source.
- LegacyComponent.Equals: the `this == o` fast path is not modelled separately. With structural equality it returns the same answer as the triple comparison.
- LegacyComponent.HashCode: the hash codes of the type object (a `Class`) and of the value come from code not shown, so they are parameters.
- LegacyComponent.StringHash hashes Dafny characters, which are Unicode scalar values, not UTF-16 code units. The two agree on the Basic Multilingual Plane.
- Upper.ToUpperCase: upper-casing is restricted to the ASCII letters. Java's locale-dependent full Unicode mapping, which can change the length ('ß' becomes "SS"), is not modelled.
- `AbstractVTLFunction` argument checking and `TypeSafeArguments` are not part of this model. `safeInvoke` receives the nullable argument directly.
- DatasetDirective.NumberBelowOne compares exact decimal values. JavaScript's rounding to a double is not modelled, so a numeral such as "99999999999999999999e-20" counts as below 1 here, while the double it rounds to is exactly 1.
- DatasetDirective.LinkFunction: the Angular wiring is not modelled. This covers the directive registration, transclusion, `transcludeFn().text()` (modelled as the `text` parameter) and the two-way binding that makes `addTo` the parent scope's list. An `addTo` bound to null (defined, but not a list) is not modelled.
- DatasetDirective.ParseError.HeaderCellUnmatched stands for the TypeError that `cell.length` raises when `exec` finds no match. The two checks that can never fire are folded into the parse: `cells.length < 1` and `cell.length != 4`.
- Cells are kept as raw strings, as in the source ("TODO: Convert?").
- LegacyDataStructure.NewDataStructure: the NullPointerException for a null element is raised inside Guava's `ImmutableList.copyOf`, which is not part of this model; its message is not modelled.
