# pdbcore: a verified model of the deterministic kernels

pdbcore reads a PostgreSQL catalog, reshapes it by comments, compares and caches it, and runs
requests against the database under a caller's identity. This project models the parts whose
behaviour is decided by logic rather than by I/O, and proves what callers rely on.

- **Catalog, canonical form, drift, cache** (`CatalogModel`, `CatalogHeap`, `Ordering`, `Diff`, `Cache`,
  `NamedSorts`, `DriftCauses`).
  A catalog is sorted in place and hashed; two catalogs are compared structurally through name-keyed
  maps; a cache file is checked by hash first and by report second. The main results say when the hash
  is well defined, that the report and the canonical form agree, and that save, load and check are
  faithful.
- **Catalog rewrites** (`EnumTables`, `TagIndexing`, `SmartComments`, `HookGuarantees`,
  `SynthesisedKeys`). Tables turned
  into enums, and smart comments that omit, gate and add. Both passes work on shared table objects and
  overwrite the lists they are reading. The main results are referential closure, conservation and
  monotonicity over the whole catalog, and exactly what each comment, tag value and row gives.
- **Transaction runner** (`Transactions`). Retry over an adversarial database, with a scoped identity.
- **Signing-key cache** (`Jwks`). Every sequence of calls against an adversarial clock and endpoint.
- **Parsers and orderings** (`SmartTags`, `GeoJson`, `SpatialValues`, `EnvNames`, `Registry`,
  `Inflection`). Round trips,
  a depth-bounded rewrite, incremental stable sorting, and exact inverse characterisations.

`Sequences` and `Strings` hold the shared list and text functions. Operations that change state in the
program are methods over classes or loops, each proved equal to a specification function; the results
are lemmas about those functions. Catalog values (`CatalogData`, `TableData`, ...) are the abstraction of
the mutable objects in `CatalogHeap`.

What stands for the outside world is a parameter: `Cache.Codec` (JSON, gzip, SHA-256; laws stated as
`Lawful` and `Injective` where a result needs them), `EnumTables.Database` (the rows of a table),
`SmartComments.Matcher` (the regular expression of `@foreignKey`, giving its four groups),
`Transactions.Env` (the answer to each request, cancellation, map iteration order, the callback) and
`Jwks.Env` (clock readings and responses).

## Where the code and its description part

- `IsSerializationFailure` is described as looking anywhere in the wrap chain; it looks at the first
  database error only. On plain chains the two agree (`ChainsHideNothing`); `SerializationFailureIff`
  is the exact condition and `JoinedErrorsHideRetries` an error it misses.
- The catalog hash is described as stable. Functions are sorted on schema and name only, and the sort
  promises nothing about ties, so with two overloads the hash depends on the order they come back in, and
  nothing in the sort's contract rules out that a cache holding them fails its own hash check.
  `CanonicalDeterminedIff` and `SavedHashHoldsIff` give the exact condition.
- Drift is meant to be reported with the lines that drifted. Hashes differ where the report finds nothing
  on catalogs that differ and still agree by name: another format version (`FormatDriftIsUnexplained`), ties between overloads
  (`OverloadDriftExample`), overloads that differ only in the schema of an argument type and so share the
  name they are compared by (`DroppedOverloadUnexplained`), and a schema configured twice
  (`RepeatedSchemaUnexplained`). `AlwaysExplainedIff` is the exact condition on all catalogs.
- `@primaryKey ","` gives a table a key with no columns (`EmptyPrimaryKeyAccepted`), which `@unique` and
  `@foreignKey` reject; `LogicalPrimaryKey` says exactly when.
- Introspected foreign keys to an omitted table stay in place (`OmittedTargetDangles`); `ClosedIff` says
  for which catalogs the result is closed.
- Objects of one qualified name share one tag entry, the last tagged one's. An untagged overload goes with
  one that carries `@omit` (`UntaggedOverloadDropped`), and an overload that carries `@omit` stays when a
  later one is tagged otherwise (`TaggedOverloadSurvives`); likewise tables whose dotted names join alike
  (`UntaggedTableDropped`) and foreign keys of one name on two tables of a schema (`NamesakeKeyDropped`),
  even where one of the tables is omitted (`OmittedTablesCommentDecides`). When every object is treated as
  its own comment asks: `FunctionsFollowCommentsIff`, `TablesFollowCommentsIff`,
  `ConstraintsFollowCommentsIff`, `ColumnsFollowCommentsIff`.
- With dots in schema names a qualified lookup and a bare one can give different tags
  (`DottedSchemasDisagree`); they agree exactly when the last tagged object of the joined name has the same
  tags (`LookupsAgreeIff`).
- The key cache's once-a-minute limit counts successful fetches only. A call asks the endpoint exactly when
  there are no keys, they have expired, or the key is unknown and they are over a minute old (`AsksIff`);
  while the endpoint refuses, every such call costs a request (`RefusedFetchesAreNotLimited`). Requests are
  always spaced exactly when the endpoint refuses none (`LimitHoldsIff`).
- A configuration key that starts with an underscore below another key cannot be set by a variable name
  without dots (`LeadingUnderscoreLost`); a top-level one can (`TopLevelUnderscore`). `ReachableIff` says
  which paths can.
- An SRID of 2^63 or more wraps around (`SridWrapsAround`, `SridExactIff`).
- A CRS is described as honoured when present; it is read from the outer document only, so a geometry
  inside a feature without one is given 4326 whatever it names (`FeatureCrsIgnored`). `CrsHonouredIff` says for which
  documents every geometry gets the system it names.
- The SQL text is described as fixed by the column's type and never dependent on the value. A document
  with another explicit SRID than 4326 changes it (`ExplicitSridShows`), and on a geography column so does
  a string's SRID prefix (`SridPrefixShows`). `DocumentTextIff` and `WktTextIff` are the exact conditions.
- The dimension marks of WKT are described as Z, M and ZM; since they are cut one after the other, ZMZ,
  ZMM and ZMZM pass too (`RepeatedMarksPass`, `LooksLikeWktIff`).

## Model

| member | source | states |
|---|---|---|
| Ordering.SortUnique | introspect/catalog.go:237-263 | two sorted permutations of a list are the same list when equal sort keys mean equal elements |
| Ordering.SortDeterminedIff | introspect/catalog.go:237-263 | an unstable sort has one possible result exactly when entries that sort alike are equal |
| Ordering.TwoSorts | introspect/catalog.go:237-263 | when two different entries tie, two different results are both sorted permutations |
| Ordering.StringLeIff | introspect/catalog.go:237-263 | a string comes no later than another exactly when it is a prefix or has the smaller first different character |
| CatalogModel.CanonicalDeterminedIff | introspect/catalog.go:225-263 | the canonical form is independent of input order and tie breaking exactly when, in every list, entries that sort alike are equal |
| CatalogModel.CanonicalOfReordering | introspect/catalog.go:225-263 | with determining sort keys, two catalogs have the same canonical form exactly when one is a reordering of the other |
| CatalogModel.ReorderingsHashAlike | introspect/catalog.go:225-235 | every reordering hashes alike, however the sorts break ties |
| CatalogModel.CanonicalIdempotent | introspect/catalog.go:225-263 | sorting a second time changes nothing |
| CatalogModel.CanonicalOrder | introspect/catalog.go:237-263 | in a canonical form every list is in order of schema, then name |
| CatalogModel.OverloadsBreakDeterminism | introspect/catalog.go:257-262 | two overloads of a function give the catalog two different canonical forms |
| CatalogModel.IndexedColumns | introspect/catalog.go:71-89 | the leading columns of the indexes, the primary key and the unique constraints, and no others |
| CatalogModel.LeadingIff | introspect/catalog.go:71-89 | a column is listed exactly when an index, the primary key or a unique constraint starts with it |
| CatalogHeap.Table.ColumnIndex | introspect/catalog.go:61-69 | the first column of that name, or none |
| CatalogHeap.Catalog.SortStable | introspect/catalog.go:237-263 | in place: every list becomes a sorted permutation of itself, nothing else changes, no table object is lost |
| CatalogHeap.Catalog.Hash | introspect/catalog.go:225-235 | sorts the catalog in place and digests the sorted form |
| CatalogHeap.SortedObjects | introspect/catalog.go:239-244 | sorting table objects sorts the tables they hold and lists no object twice |
| Diff.CollectSortedKeys | introspect/diff.go:199-206 | the keys of a map in their one sorted order, whatever order the map yields them in |
| Diff.BuildMap | introspect/diff.go:163-189 | keys a list by name; a later entry replaces an earlier one |
| Diff.MapsAgree | introspect/diff.go:163-189 | without name clashes, name-keyed maps are equal exactly when the lists are permutations of each other |
| Diff.DiffStringSet | introspect/diff.go:26-46 | sorted removals, then sorted additions |
| Diff.DiffNamed | introspect/diff.go:50-68 | sorted removals, then additions and changes in name order |
| Diff.DiffTables | introspect/diff.go:70-94 | sorted removals, then additions and each table's own report in name order |
| Diff.DiffTable | introspect/diff.go:96-129 | column lines, or one coarse line when only something else differs |
| Diff.DiffCatalogs | introspect/diff.go:13-24 | server version, schemas, tables, enums, composites and functions, in that order |
| Diff.TableDiffEmpty | introspect/diff.go:96-129 | a table's report is empty exactly when the two tables are equal in full |
| Diff.DefinitionIff | introspect/diff.go:131-150 | the coarse line says "definition" exactly when none of the eight named aspects differs |
| Diff.AspectsIff | introspect/diff.go:131-150 | each of the eight labels stands in the list exactly when its own aspect changed |
| Diff.TypeDescIff | introspect/diff.go:152-161 | two columns print alike exactly when type, array mark and nullability agree |
| Diff.TypeDescSamples | introspect/diff.go:152-161 | the four texts of an int4 column |
| Diff.FunctionNameLists | introspect/diff.go:179-189 | a function is compared by schema, name and its argument types in order |
| Diff.TableDiffReports | introspect/diff.go:96-129 | a table line states a column change under the right kind, or is the one coarse line, there exactly when no named column changed but the tables differ |
| Diff.NamedDiffReports | introspect/diff.go:50-68 | a line is reported exactly when it states a real removal, addition or change |
| Diff.ColumnsDiffReports | introspect/diff.go:105-122 | a column line is reported exactly when it states a real column removal, addition, type change or other change |
| Diff.TablesDiffReports | introspect/diff.go:70-94 | a line is reported exactly when it states a table's removal, addition or belongs to its own report |
| Diff.SetDiffReports | introspect/diff.go:26-46 | a line states a schema only one side has |
| Diff.CatalogDiffReports | introspect/diff.go:13-24 | a line of the whole report is a changed server version or belongs to one of the five sections |
| Diff.NamedDiffInOrder | introspect/diff.go:50-68 | removals come first, and both groups are in name order |
| Diff.SetDiffInOrder | introspect/diff.go:26-46 | removals come first, and both groups are in name order |
| Diff.TableMapDiffInOrder | introspect/diff.go:70-94 | removed tables come first, and both groups are in name order |
| Diff.ColumnsInOrder | introspect/diff.go:105-122 | within a table dropped columns come first, and both groups are in column order |
| Diff.DiffEmptyIff | introspect/diff.go:13-24 | on all catalogs: the report is empty exactly when server version, schema sets and name-keyed maps agree |
| Diff.DiffEmptyIffReordering | introspect/diff.go:13-129 | with distinct names and equal format version, the report is empty exactly on reorderings |
| Diff.DiffAgreesWithCanonical | introspect/diff.go:10-24 | with distinct names and no overloads, the report is empty exactly when the canonical forms, hence the hashes, are equal |
| Cache.Save | cache/cache.go:30-53 | sorts the catalog and writes version, hash and sorted catalog; a failure says which and what the file then holds |
| Cache.Load | cache/cache.go:56-93 | success means that the file inflates within the limit to an envelope of format 3 with a catalog, of which the result is a sorted form with the envelope's hash; each refusal has its own cause |
| Cache.LoadWritten | cache/cache.go:74-92 | an envelope read back is refused exactly when it is too large, of another format, without a catalog, or does not match its hash |
| Cache.Check | cache/cache.go:97-118 | no drift exactly on equal hashes, otherwise both hashes and every line of the report; the live catalog is sorted |
| Cache.OpenSaved | cache/cache.go:30-93 | a saved file opens to exactly the saved hash and catalog, unless it is over the size limit |
| Cache.SavedHashHoldsIff | cache/cache.go:83-92 | a saved catalog is sure to pass the hash check exactly when no two different entries tie in the sort |
| Cache.SaveThenLoad | cache/cache.go:30-93 | loading what was saved gives the canonical form of the catalog |
| Cache.SaveThenCheck | cache/cache.go:30-118 | a check against a saved catalog finds no drift exactly when the live one is a reordering of it |
| Cache.NoDriftIff | cache/cache.go:97-118 | two sorted catalogs hash alike exactly when the originals are reorderings of each other |
| Cache.DriftExplainedIff | cache/cache.go:97-118 | where no two objects share the name they are compared by: drift always has lines exactly when the catalogs differ by name, or have equal format versions and no different entries that sort alike |
| Cache.DriftIsExplained | cache/cache.go:109-117 | the case the hash is designed for, distinct names and sort keys: drift is found exactly when the report has lines |
| Cache.OverloadDriftIsUnexplained | introspect/catalog.go:257-262 | a catalog with two overloads and two of its own canonical forms: drift without a line |
| Cache.OverloadDriftExample | introspect/catalog.go:257-262 | such a catalog, holding nothing but f(int4) and f(text) |
| Cache.FormatDriftIsUnexplained | introspect/diff.go:13-24 | catalogs differing only in format version: drift without a line |
| DriftCauses.UnexplainedIff | cache/cache.go:109-117 | drift has no line exactly when the sorted catalogs differ and agree by name |
| DriftCauses.AlwaysExplainedIff | cache/cache.go:97-118 | on all catalogs: drift always has lines exactly when for some name no entry can be kept by both, or the catalogs are reorderings and ties are only between pairs of one name that come last of it |
| DriftCauses.DroppedOverloadUnexplained | introspect/diff.go:179-189 | a cached f(a.mood), f(b.mood) against a live f(b.mood): drift without a line |
| DriftCauses.RepeatedSchemaUnexplained | introspect/diff.go:26-46 | a schema listed twice against once: drift without a line |
| NamedSorts.AlikeShareLasts | introspect/diff.go:163-189 | sorted lists that look alike by name have, for every name, one entry that can come last in both |
| NamedSorts.FormsAlike | introspect/diff.go:163-189 | and where they have, some sorted forms do look alike |
| NamedSorts.PinnedFormsEqual | introspect/catalog.go:237-263 | sorted forms that look alike are equal where different entries tie only in pairs of one name that come last of it |
| NamedSorts.UnpinnedForms | introspect/catalog.go:237-263 | everywhere else two different sorted forms look alike |
| SmartTags.Parse | smarttags/smarttags.go:21-45 | the loop equals the recursive reading of tag lines, blank lines and description |
| SmartTags.ParsePrinted | smarttags/smarttags.go:18-45 | printing tags, with blank lines between, and a description, then parsing, gives back every tag's values in order and the description |
| SmartTags.TaggedIff | smarttags/smarttags.go:18-24 | a comment has tags exactly when its first character other than a space is '@'; if not, all of it is description, and otherwise the description is trimmed |
| SmartTags.TagLineReads | smarttags/smarttags.go:29-43 | spaces around a tag line, and the kind and number of blanks after the name, mean nothing; a nameless tag is skipped |
| SmartTags.StripIdempotent | smarttags/smarttags.go:47-51 | stripping a stripped comment changes nothing, for every string |
| SmartTags.SplitListIff | smarttags/smarttags.go:111-117 | the items are exactly those the value strings together, in order, with runs of separators |
| SmartTags.SplitListJoined | smarttags/smarttags.go:111-117 | so splitting a list joined by any run of separators gives the list back |
| SmartTags.Omits | smarttags/smarttags.go:72-109 | the actions named by @omit and negative @behavior tokens, and whether a bare @omit occurs |
| SmartTags.OmittedIff | smarttags/smarttags.go:72-109 | exactly the actions an @omit item names, in any case, or one of the six negative @behavior tokens takes away |
| EnumTables.EnumValueColumn | introspect/enumtables.go:86-109 | the early-return loop finds the specified value column |
| EnumTables.ValueColumnQualifies | introspect/enumtables.go:86-109 | the column is a text, non-array column alone under a key: the primary key only when no tagged unique has one; "" only when neither does |
| EnumTables.QualifiesIff | introspect/enumtables.go:86-117 | the value column is exactly that of the first usable tagged unique constraint, or of the primary key where there is none, by the five text types |
| EnumTables.TaggedUniqueFirst | introspect/enumtables.go:100-107 | among tagged unique constraints the first usable one decides |
| EnumTables.EnumDescriptionColumn | introspect/enumtables.go:119-133 | the first tagged column other than the value column, else one called description |
| EnumTables.DescribedByIff | introspect/enumtables.go:119-133 | exactly the first column tagged @enumDescription, else one called description, never the value column |
| EnumTables.ReadEnumTable | introspect/enumtables.go:135-165 | values and descriptions in row order; nothing for an empty table; the error of a failed read |
| EnumTables.ReadTables | introspect/enumtables.go:29-52 | reads exactly the tagged, qualifying tables, in order, and stops at the first failure |
| EnumTables.PlanFails | introspect/enumtables.go:41-44 | a failed read is the result of the whole pass, whatever tables follow |
| EnumTables.PlanCovers | introspect/enumtables.go:48-49 | the plan names exactly the converted tables, each with its value column and its enum |
| EnumTables.PlanEnums | introspect/enumtables.go:143-164 | every new enum is table-backed, non-empty and named after a converted table |
| EnumTables.PlanEnumsInOrder | introspect/enumtables.go:31-53 | one enum per converted table, in table order |
| EnumTables.DropConverted | introspect/enumtables.go:55-61 | overwriting the table list while reading it filters it, in order |
| EnumTables.RebindForeignKeys | introspect/enumtables.go:66-82 | overwriting a key list while reading it filters it and binds columns |
| EnumTables.ConvertEnumTables | introspect/enumtables.go:28-84 | the in-place conversion equals the specified rewrite; on error the catalog is unchanged |
| EnumTables.ConversionMeaning | introspect/enumtables.go:31-53 | a table is converted, or the pass aborted, exactly as the answer to its read says, given its tag and qualifying column |
| EnumTables.LeavesIff | introspect/enumtables.go:31-61 | a table leaves exactly when one of its joined name is tagged @enum, has a qualifying column and returned a row |
| EnumTables.EnumsAre | introspect/enumtables.go:53 | the new enums are the old ones followed by exactly those that hold the rows of converted tables |
| EnumTables.PlanErrIff | introspect/enumtables.go:41-44 | the conversion fails exactly when a read it calls for fails, with the first such error |
| EnumTables.ConvertUntagged | introspect/enumtables.go:32-35 | without a table tagged @enum it succeeds and changes nothing, whatever the database answers |
| EnumTables.ClosurePreserved | introspect/enumtables.go:28-84 | if every foreign key resolved before, every remaining one resolves after |
| EnumTables.NoKeyToConverted | introspect/enumtables.go:63-82 | a key is kept exactly when it does not point at a converted table |
| EnumTables.KeysConserved | introspect/enumtables.go:66-82 | kept and dropped keys together are the original ones |
| EnumTables.TablesConserved | introspect/enumtables.go:55-61 | kept and removed tables together are the original ones; a table goes exactly when its name is a converted table's |
| EnumTables.LastBindingWins | introspect/enumtables.go:75-79 | a column bound by several keys takes the last binding, and nothing else about columns changes |
| EnumTables.BindingsResolve | introspect/enumtables.go:75-79 | a column bound by some key, the first of its name, refers to a table-backed enum of the new catalog; every other column is unchanged |
| EnumTables.BindingIff | introspect/enumtables.go:69-80 | the last key over a column alone, to the value column of a converted table, binds the first column of the name; no other column changes |
| Sequences.CompactStep | introspect/enumtables.go:55-60 | appending to `x[:0]` while ranging over `x` never overwrites an element still to be read |
| Sequences.CompactDone | smartcomments/catalog/hook.go:143-159 | after the loop the buffer's front is the order-preserving filter of the original list |
| Sequences.FilterPartition | smartcomments/catalog/hook.go:143-159 | kept and rejected elements together are the original ones |
| TagIndexing.TagIndex.constructor | smartcomments/catalog/index.go:34-82 | fills all nine maps as specified for every commented object, in visiting order |
| TagIndexing.IndexEntry | smartcomments/catalog/index.go:46-57 | one commented object: its qualified entry is replaced, its bare entry added or blanked |
| TagIndexing.ByMeansSole | smartcomments/catalog/index.go:46-57 | a bare name resolves exactly when one tagged object has it, and then to that object's tags |
| TagIndexing.AmbiguityIsFinal | smartcomments/catalog/index.go:52-56 | more objects can blank a bare name but never revive or redirect it |
| TagIndexing.ExactMeansLast | smartcomments/catalog/index.go:46-57 | a qualified name resolves to the last tagged object that has it |
| TagIndexing.SoleOwnerGetsItsTags | smartcomments/catalog/index.go:46-57 | an object that shares its qualified name with no other gets its own tags back |
| TagIndexing.CommentsDecideIff | smartcomments/catalog/index.go:46-57 | every object is treated as its own comment asks exactly when objects of one qualified name ask for the same |
| TagIndexing.LookupsAgreeIff | smartcomments/catalog/index.go:84-89 | a usable bare name and the qualified name give the same tags exactly when the last tagged object of the joined name has the same tags |
| TagIndexing.LookupsAgree | smartcomments/catalog/index.go:84-89 | so they always do with dot-free schemas |
| TagIndexing.DottedSchemasDisagree | smartcomments/catalog/index.go:84-89 | two objects, dots in their names, for which the two lookups differ |
| TagIndexing.LookupIff | smartcomments/catalog/index.go:84-89 | with a schema the last tagged object of the qualified name answers and nothing else; without, the only tagged one of the name |
| TagIndexing.EveryObjectIndexed | smartcomments/catalog/index.go:58-81 | every table, enum and function is indexed by its schema, name and comment |
| SmartComments.ColumnsExist | smartcomments/catalog/hook.go:213-220 | true exactly when every name is a column of the table |
| SmartComments.ParseSegments | smartcomments/catalog/hook.go:200-208 | the tags of the trailing segments, repeated names collecting values in order |
| SmartComments.SegmentTagsMeaning | smartcomments/catalog/hook.go:200-208 | a name collects the values of its segments, in order, and is recorded exactly when it has one |
| SmartComments.SegmentsPrinted | smartcomments/catalog/hook.go:200-208 | segments printed after a key parse back to every name's values in order |
| SmartComments.Hook.ParseForeignKey | smartcomments/catalog/hook.go:169-211 | the key of the specification, if every check passes, and its segments indexed under its name |
| SmartComments.Hook.ApplyTableCatalogTags | smartcomments/catalog/hook.go:79-160 | the whole new state of the table and of the constraint index |
| SmartComments.Hook.TagColumnsOf | smartcomments/catalog/hook.go:120-141 | nullability and synthetic indexes from column tags |
| SmartComments.Hook.PruneUniques | smartcomments/catalog/hook.go:143-150 | overwriting the list while reading it filters it |
| SmartComments.Hook.PruneKeys | smartcomments/catalog/hook.go:152-159 | overwriting the list while reading it filters it |
| SmartComments.Hook.PruneFunctions | smartcomments/catalog/hook.go:64-72 | overwriting the list while reading it filters it |
| SmartComments.Hook.TransformCatalog | smartcomments/catalog/hook.go:47-74 | the whole new catalog and rebuilt index, of which only the constraints grow; omitted tables leave before any tag is applied |
| HookGuarantees.TablesInOrder | smartcomments/catalog/hook.go:53-62 | each kept table appears once, in order, rewritten by its own tags |
| HookGuarantees.TransformIsMonotone | smartcomments/catalog/hook.go:48-160 | no kept table gains a privilege, exactly the omitted actions are withdrawn, and none loses its key, its identity or, if dropped uniques are indexed, filterability |
| HookGuarantees.IdentityKept | smartcomments/catalog/hook.go:79-160 | names, kind, comment, row security and existing indexes survive; a real primary key is never replaced |
| HookGuarantees.Nullability | smartcomments/catalog/hook.go:120-130 | @nullable beats @notNull, nothing else about a column changes |
| HookGuarantees.LogicalPrimaryKey | smartcomments/catalog/hook.go:91-103 | a logical key names existing columns, and none at all exactly when the tag lists none |
| HookGuarantees.EmptyPrimaryKeyAccepted | smartcomments/catalog/hook.go:91-112 | a lone separator gives a key without columns, and no unique constraint |
| HookGuarantees.SynthesisedUniques | smartcomments/catalog/hook.go:104-112 | every added unique constraint has columns, and they exist |
| HookGuarantees.FilterableOnlyGrows | introspect/catalog.go:71-89 | filterable columns are lost only with a dropped unique constraint that no index backs |
| HookGuarantees.TaggedColumnsFilterable | smartcomments/catalog/hook.go:131-140 | every @filterable or @sortable column becomes filterable |
| HookGuarantees.SyntheticIndexIff | smartcomments/catalog/hook.go:131-140 | a column gets its synthetic index exactly when the indexed tags of its name ask for one |
| HookGuarantees.ColumnsFollowComments | smartcomments/catalog/hook.go:120-141 | where namesakes ask for the same, a kept column becomes filterable exactly as its own comment asks |
| HookGuarantees.ColumnsFollowCommentsIff | smartcomments/catalog/hook.go:120-141 | every kept column becomes filterable as its own comment asks exactly when the last comment of its joined name asks the same, or its index is already there |
| HookGuarantees.KeyForIsSound | smartcomments/catalog/hook.go:180-194 | a parsed key has non-empty lists of equal length over columns both tables have |
| HookGuarantees.SynthesisedKeysResolve | smartcomments/catalog/hook.go:48-74 | every key in the final catalog was introspected or is sound in the final catalog |
| SynthesisedKeys.GainedKeysIff | smartcomments/catalog/hook.go:113-198 | a table gains exactly the keys its @foreignKey values specify, with the written schema or its own, where everything named exists in the first kept table of that name |
| SynthesisedKeys.ValueGainsIff | smartcomments/catalog/hook.go:180-194 | a value whose groups are given gains its key if and only if the lists are non-empty, equally long and over existing columns |
| SynthesisedKeys.GainedSurvivesIff | smartcomments/catalog/hook.go:152-159 | a gained key survives exactly when the tags it is judged by carry no bare @omit |
| SynthesisedKeys.SegmentsDecide | smartcomments/catalog/hook.go:200-208 | printed segments of an accepted value become its key's tags, and a bare @omit among them drops it |
| SynthesisedKeys.GainedUniquesIff | smartcomments/catalog/hook.go:104-112 | a table gains exactly one unique constraint for every @unique value that lists existing columns |
| SynthesisedKeys.PrimaryKeyIs | smartcomments/catalog/hook.go:91-103 | the primary key is the table's own, or lists the items of the first non-empty @primaryKey value, if all exist |
| HookGuarantees.ResolvesIffTargetKept | smartcomments/catalog/hook.go:51-59 | a key resolves in the final catalog exactly when a table it refers to was kept |
| HookGuarantees.ClosedIff | smartcomments/catalog/hook.go:51-59 | the final catalog is referentially closed exactly when every key on a kept table refers to a kept table or is itself omitted |
| HookGuarantees.OmittedTargetDangles | smartcomments/catalog/hook.go:51-59 | a closed catalog that does not stay closed |
| HookGuarantees.ShapesKept | smartcomments/catalog/hook.go:60-62 | applying tags changes no table's name and no column's name |
| HookGuarantees.OwnTags | smartcomments/catalog/hook.go:54-62 | without name clashes a table is treated by its own comment |
| HookGuarantees.TablesFollowCommentsIff | smartcomments/catalog/hook.go:53-59 | every table is treated as its own comment asks exactly when tables of one qualified name ask for the same |
| HookGuarantees.OmittedTables | smartcomments/catalog/hook.go:53-59 | exactly the tables whose comment carries a bare @omit disappear |
| HookGuarantees.TableKeptIff | smartcomments/catalog/hook.go:53-59 | a table goes exactly when the last tagged table of its joined name carries a bare @omit |
| HookGuarantees.UntaggedTableDropped | smartcomments/catalog/index.go:46-57 | a table without tags that goes with one whose dotted name joins alike |
| HookGuarantees.FunctionKeptIff | smartcomments/catalog/hook.go:64-72 | a function goes exactly when the last tagged function of its name carries a bare @omit |
| HookGuarantees.FunctionsFollowCommentsIff | smartcomments/catalog/hook.go:64-72 | every function is treated as its own comment asks exactly when its overloads ask for the same |
| HookGuarantees.UntaggedOverloadDropped | smartcomments/catalog/index.go:46-57 | an overload without tags that goes with the one that carries @omit |
| HookGuarantees.TaggedOverloadSurvives | smartcomments/catalog/index.go:46-57 | an overload that carries @omit and stays |
| HookGuarantees.OmittedFunctions | smartcomments/catalog/hook.go:64-72 | so without overloads exactly those whose own comment carries a bare @omit disappear |
| HookGuarantees.ConstraintKeptIff | smartcomments/catalog/hook.go:143-159 | a unique or foreign key goes exactly when the last comment of its qualified name, or segments recorded under that name since, carry a bare @omit |
| HookGuarantees.UniqueFollowsComment | smartcomments/catalog/hook.go:143-150 | where namesakes ask for the same, a unique constraint is treated as its own comment asks |
| HookGuarantees.KeyFollowsComment | smartcomments/catalog/hook.go:152-159 | where namesakes ask for the same, a foreign key is treated as its own comment asks |
| HookGuarantees.ConstraintsFollowCommentsIff | smartcomments/catalog/hook.go:143-159 | every constraint of a kept table is treated as its own comment asks exactly when the tags it is judged by ask the same |
| HookGuarantees.NamesakeKeyDropped | smartcomments/catalog/index.go:66-76 | a foreign key without tags that goes with its namesake on another table |
| HookGuarantees.OmittedTablesCommentDecides | smartcomments/catalog/hook.go:49-59 | and goes even when that table is itself omitted |
| HookGuarantees.NamesakesShareFate | smartcomments/catalog/hook.go:152-159 | foreign keys of one name on two tables of a schema stay or go together |
| HookGuarantees.RecordedNames | smartcomments/catalog/hook.go:195-208 | segments are recorded only under names that @foreignKey values of the given tables synthesise |
| Transactions.SerializationFailureIff | pgexec/tx.go:137-146 | a carried retryable code is missed exactly when another database error comes first |
| Transactions.ChainsHideNothing | pgexec/tx.go:137-146 | on plain wrap chains the test finds exactly the carried retryable codes |
| Transactions.JoinedErrorsHideRetries | pgexec/tx.go:137-146 | a joined error with a retryable code that the test misses |
| Transactions.Connection.ApplyIdentity | pgexec/tx.go:98-135 | role first, then claims one by one; the first failure ends it |
| Transactions.Connection.RunOnce | pgexec/tx.go:81-96 | begin, identity, callback, commit; the transaction is closed on every path out |
| Transactions.Connection.RunTx | pgexec/tx.go:64-79 | the retry loop makes the specified attempts and leaves no transaction open |
| Transactions.RunShape | pgexec/tx.go:64-79 | at most max(retries, 0) + 1 attempts; all but the last failed retryably, committed nothing, changed nothing; the last one's error is returned |
| Transactions.AllOrNothing | pgexec/tx.go:64-96 | success exactly when the last attempt committed; on failure the world is unchanged |
| Transactions.RetriesAreUsed | pgexec/tx.go:71-72 | a serialization failure is returned only when the budget ran out or the context was cancelled |
| Transactions.RunContinuesIff | pgexec/tx.go:71-73 | an attempt is followed by another exactly when it is under the budget, it failed, its first code is 40001 or 40P01, and the context is not cancelled |
| Transactions.RunAttempts | pgexec/tx.go:81-96 | every attempt ends as its requests were answered: which error is returned, with which codes, and when it commits |
| Transactions.CallbackSeesIdentity | pgexec/tx.go:81-96 | under row security the callback runs only after the role switch and every usable claim |
| Transactions.RunSeesIdentity | pgexec/tx.go:64-96 | the same in every attempt of a run |
| Transactions.RunSeesClaims | pgexec/tx.go:101-135 | in every attempt each usable claim has its value and every other name the session's |
| Transactions.ClaimConfigMeaning | pgexec/tx.go:114-133 | exactly the usable claims are set, each to its value |
| Transactions.ClaimMeaning | pgexec/tx.go:110-128 | a claim is set exactly when its key is of letters, digits and underscores and it has a text, under the given prefix or pdbq.claims |
| Transactions.OrderIrrelevantIff | pgexec/tx.go:114-133 | the settings do not depend on map iteration order exactly when usable claims equal up to letter case have equal values |
| Transactions.NoIdentityLeaks | pgexec/tx.go:98-100 | a callback without session-level changes leaves the connection's role and settings as they were, however the run ends |
| Jwks.JwksCache.constructor | auth/jwks.go:84-89 | starts empty, with an hour for a non-positive time to live |
| Jwks.JwksCache.FetchLocked | auth/jwks.go:128-160 | replaces keys and timestamp on success; otherwise changes neither |
| Jwks.JwksCache.GetKey | auth/jwks.go:91-113 | one call: expiry, lookup, limited refetch and second lookup, in that order |
| Jwks.AnswersIff | auth/jwks.go:93-126 | over every sequence of calls an identifier is answered with the key of the last signing entry that has it in the latest successful document, and with none otherwise or when this call was refused |
| Jwks.EmptyAnswers | auth/jwks.go:115-126 | the empty identifier is answered with the key of a one-key set, and with none otherwise or when this call was refused |
| Jwks.UnknownKidAsks | auth/jwks.go:104-107 | an identifier missing from the latest document always costs a request once the keys are over a minute old |
| Jwks.PublishedKeys | auth/jwks.go:144-156 | a fetch succeeds exactly with a document that has a usable signing key |
| Jwks.KeysOfMeaning | auth/jwks.go:145-155 | a document's keys are its signing entries', the last entry of an identifier winning |
| Jwks.CallsKeepGood | auth/jwks.go:93-160 | over every sequence of calls, keys and timestamp are the latest successful fetch's |
| Jwks.SuccessesAreSpaced | auth/jwks.go:96-110 | successful fetches are more than min(ttl, a minute) apart |
| Jwks.KeysAreCurrent | auth/jwks.go:91-126 | a returned key is from the latest successful fetch, at most the time to live old; an empty identifier is answered only from a one-key set |
| Jwks.RequestsAreSpacedAfterSuccess | auth/jwks.go:96-110 | any request after a successful one, however many lie between, comes more than min(ttl, a minute) later |
| Jwks.AsksIff | auth/jwks.go:96-107 | a call asks the endpoint exactly without keys, with expired ones, or for an unknown key when they are over a minute old |
| Jwks.LimitHoldsIff | auth/jwks.go:96-110 | in every run, at every pace of the clock, all requests are more than min(ttl, a minute) apart exactly when the endpoint refuses none |
| Jwks.RefusedFetchesAreNotLimited | auth/jwks.go:96-110 | while the endpoint refuses, n calls at one instant cost n requests if the first one asks and none otherwise; keys and timestamp stay |
| GeoJson.UnwrapGeoJSON | postgis/postgis.go:271-312 | the recursive method equals the specified unwrapping, with its error |
| GeoJson.UnwrapFeatures | postgis/postgis.go:297-309 | the features in order; the first failure ends it |
| GeoJson.UnwrapIff | postgis/postgis.go:271-312 | succeeds exactly on well-formed documents with at most 8 wrappers on any path, and then yields the bare form |
| GeoJson.UnwrapAllIff | postgis/postgis.go:296-309 | the same for every member of a collection |
| GeoJson.UnwrappedIsBare | postgis/postgis.go:271-312 | the result is a valid bare geometry, and unwrapping it again changes nothing |
| GeoJson.OneMemberPerFeature | postgis/postgis.go:301-309 | each feature contributes its own bare geometry at its own place |
| GeoJson.ReadSrid | postgis/postgis.go:346-360 | the search over both prefixes equals its specification |
| GeoJson.AccumulatesDecimal | postgis/postgis.go:348-354 | the accumulated number is the decimal value wrapped to 64 bits, and only digits are accepted |
| GeoJson.SridExactIff | postgis/postgis.go:330-361 | either prefix and digits give that number exactly when it is positive and below 2^63, otherwise its wrapped value or none |
| GeoJson.SridIff | postgis/postgis.go:346-360 | exactly which names give which SRID |
| GeoJson.CrsNameIff | postgis/postgis.go:333-345 | the name is read off crs, properties and name, and only if those are objects and a string |
| GeoJson.SridWrapsAround | postgis/postgis.go:348-354 | 2^64 + 3857 is read as 3857 |
| GeoJson.BareKeepsCrs | postgis/postgis.go:271-312 | unwrapping neither loses nor invents a geometry with a CRS of its own |
| GeoJson.CrsHonouredIff | postgis/postgis.go:246-265 | every geometry handed on gets the system it names exactly when every geometry of the document names, if any, the document's own, or 4326 where it has none |
| GeoJson.BareCrsHonoured | postgis/postgis.go:330-361 | a single geometry without wrappers always gets the system it names |
| GeoJson.FeatureCrsIgnored | postgis/postgis.go:330-361 | a feature around a point in EPSG:3857, which is given 4326 |
| SpatialValues.ParseGeoJSON | postgis/postgis.go:241-265 | the unwrapped geometry with the explicit SRID or 4326 |
| SpatialValues.ParseWkt | postgis/postgis.go:157-179 | the trimmed string, with 4326 forced exactly on a geography without an SRID prefix |
| SpatialValues.TextAcceptedIff | postgis/postgis.go:143-179 | exactly which strings are accepted for which column, and as which value |
| SpatialValues.DocumentAcceptedIff | postgis/postgis.go:143-156 | exactly which documents are accepted for which column, and as which value |
| SpatialValues.ReadEwktPrefix | postgis/postgis.go:181-200 | the text after "SRID=", digits and a semicolon, in any case |
| SpatialValues.EwktPrefixIff | postgis/postgis.go:181-200 | an SRID prefix is exactly "srid=" in any case, digits and a semicolon |
| SpatialValues.ScanKeywords | postgis/postgis.go:212-232 | the loop over keywords finds one that is followed by a body |
| SpatialValues.LooksLikeWktIff | postgis/postgis.go:212-232 | a string passes exactly as a keyword, one of seven strings of marks, and a parenthesis or EMPTY, spaces between |
| SpatialValues.MarksIff | postgis/postgis.go:221-225 | cutting ZM, Z and M in turn removes exactly those seven strings |
| SpatialValues.SqlTextIff | postgis/postgis.go:111-129 | two values of one constructor, type and placeholder give one SQL text exactly when their SRIDs are equal |
| SpatialValues.SqlTexts | postgis/postgis.go:117-129 | the four expressions, constructor, SRID and cast included |
| SpatialValues.DocumentTextIff | postgis/postgis.go:111-129 | a document changes the text exactly when its explicit SRID is not 4326 |
| SpatialValues.WktTextIff | postgis/postgis.go:157-179 | two strings give one text exactly on a geometry column or when both or neither carry an SRID prefix |
| SpatialValues.ExplicitSridShows | postgis/postgis.go:111-129 | two points of one column with different SQL texts |
| SpatialValues.SridPrefixShows | postgis/postgis.go:157-179 | two strings for one geography column with different SQL texts |
| SpatialValues.RepeatedMarksPass | postgis/postgis.go:221-225 | a string with the marks ZMZM that passes |
| EnvNames.RoundTripIff | confx/load.go:61-71 | a path survives encoding and mapping exactly when it has no upper-case letter, no NUL and no separator before a separator or underscore |
| EnvNames.PlainPathsRoundTrip | confx/load.go:61-71 | every path of non-empty lower-case keys not starting with an underscore round trips |
| EnvNames.ReachableIff | confx/load.go:61-71 | some variable name without dots maps to a path exactly when the path round trips |
| EnvNames.ReachableByAnyNameIff | confx/load.go:61-71 | some variable name maps to a path exactly when it has no upper-case letter and no NUL |
| EnvNames.LeadingUnderscoreLost | confx/load.go:61-71 | a path that does not round trip, that no dot-free name reaches, and that a name with a dot does |
| EnvNames.TopLevelUnderscore | confx/load.go:61-71 | a top-level key that starts with an underscore is reached |
| EnvNames.CollectSlicePaths | confx/load.go:104-126 | adds exactly the type's slice paths to the collected ones |
| EnvNames.PathsIff | confx/load.go:93-126 | a path is collected exactly when keys lead along it, through squashed structs, to a slice |
| EnvNames.SlicePathsIff | confx/load.go:93-126 | the list paths are exactly the keys that lead to a slice, joined by dots |
| EnvNames.EnvValueMapper | confx/load.go:73-91 | the key, and the value split and trimmed exactly when the key is a list |
| EnvNames.ListsAreReachable | confx/load.go:61-126 | every list whose path round trips can be set: its variable arrives at it as the list that was written, the empty one included |
| EnvNames.ScalarsArrive | confx/load.go:77-81 | a value for any other path that round trips arrives as it was written |
| EnvNames.ListItemsPadded | confx/load.go:82-89 | spaces around items and empty pieces of a list value mean nothing |
| Registry.AddKeepsStable | plugin/plugin.go:51-59 | sorting after each addition amounts to one stable sort of everything added |
| Registry.StableSortUnique | plugin/plugin.go:56-58 | there is only one stable order |
| Registry.Registry.Add | plugin/plugin.go:51-59 | the plugins remain the stable sort of the insertion sequence |
| Registry.Registry.Enabled | plugin/plugin.go:70-79 | exactly the plugins not disabled, in the order they would have had on their own |
| Registry.EnabledStaysStable | plugin/plugin.go:70-79 | filtering a stable sort is the stable sort of the filtered plugins |
| Registry.Registry.TransformCatalog | plugin/plugin.go:81-91 | runs hooks in order and stops at the first error |
| Registry.Registry.Inflector | plugin/plugin.go:93-110 | the backward loop builds the right fold of the enabled hooks over the base |
| Registry.LowestPriorityOutermost | plugin/plugin.go:93-110 | the first hook of smallest priority is called first and wraps the rest |
| Registry.NoHooksBase | plugin/plugin.go:95-97 | without hooks names come from the base |
| Registry.HooksInTurn | plugin/plugin.go:81-91 | each catalog hook gets what the one before it left, and the first error ends the pass and is returned |
| Inflection.OrderIrrelevant | inflect/inflect.go:114-126 | the irregular lookup does not depend on map iteration order |
| Inflection.TablesUnambiguous | inflect/inflect.go:99-112 | no name ends in two irregular forms of one table |
| Inflection.SingularOfPluralIff | inflect/inflect.go:128-164 | singularising a plural gives the word back exactly when it is not an irregular plural and does not end in se, xe, ze, che, she or, from three letters, ie |
| Inflection.IrregularForms | inflect/inflect.go:99-139 | the irregular words, whole or after an underscore, both ways |
| Inflection.PluralLetters | inflect/inflect.go:156-164 | a regular word takes ies after a consonant and y, es after s, x, z, ch and sh, and s otherwise |
| Inflection.RegularSingular | inflect/inflect.go:137-145 | what each ending in s gives |
| Inflection.SingularWithoutS | inflect/inflect.go:137-146 | a regular word without a final s is its own singular |

## Left out

- SQL text, row scanning and catalog queries of `introspect/introspect.go`, the pool, `watch`: their behaviour is PostgreSQL's.
- JSON text, gzip and SHA-256: parameters with stated laws; nil and empty lists are one value, and canonical texts are compared as values.
- Cache.Load: a stream that breaks while being read counts as not a cache file, even one that would first have exceeded the limit; closing errors count as write errors.
- Cache.Check: the header shows whole hashes rather than their first twelve characters; lines are structured rather than printed.
- The regular expression of `@foreignKey`, JWT parsing, base64 and key construction: parameters that may refuse or yield their result.
- Sharing of column, constraint and key objects between tables, and of one list's storage with another's: tables are objects, what they hold are values, and each in-place filter overwrites the list it reads.
- Transactions.Connection.Commit: a commit whose outcome is unknown to the client counts as no commit.
- Transactions.Connection.RunTx: the callback is a function of its transaction; isolation level and logging are not modelled.
- Jwks.JwksCache.GetKey: one call is atomic, as its lock makes it; the HTTP client's own timeout is part of the response.
- SpatialValues.ParseGeoJSON: the parameter is the geometry itself; re-encoding it as text cannot fail here.
- SpatialValues.MarksIff and the other string results are over ASCII, as is the case-insensitive prefix.
- EnvNames.PathsIff: fields are given by embedding, tag and kind; reflection and the layering of sources are left out.
- Inflection.SingularOfPluralIff: names are sequences of characters; camel-case and enum-value formatting are left out.
- Text is ASCII: case mapping and white space beyond it are not modelled.
- The wording of errors and logged warnings.
- Error classes, validators, operator tables, HTTP middleware and token minting: lookups and thin wrappers.
