# Form and column utilities: a Dafny model

This project models the data utilities of a Vue table/form component library (`src/utils.ts`):

- **`unFlattenForm`** turns a flat form record into a nested object. Each key is a path of comma-separated segments, such as `"user,name"` or `"items,0,name"`. A numeric segment after the first selects an array element. A post-pass (`cleanArrays`) turns every non-empty object whose keys are all numeric into an array.
- **`filterEmptyValues`** copies a record without its `''`, `null` and `undefined` values.
- **`validateColumns`** reports, with 1-based positions, what is wrong with each descriptor in a column list.
- **`normalizeColumns`** fills in `name`, `label`, `hideInTable` and `fieldProps` on a copy of each descriptor.
- **`ColumnBuilder`** is a fluent builder of one descriptor. Each setter writes one field and returns the builder; `build()` returns a top-level copy.

JavaScript values are the datatype `JsValues.JsVal`, with JavaScript truthiness spelled out as `Truthy`. Arrays hold `Option`s, so the holes left by a sparse write such as `arr[3] = x` on an empty array are representable. An array index is a canonical decimal numeral (`IsNumericSeg`): `Number` reads it as `DecimalValue`, and `String` writes it back as `NatToString`.

The `cur` reference of `unFlattenForm` is a path (`TreePaths.Path`) from the root of the result. A write through `cur` replaces the subtree at that path.

- `FormCodec.WalkKey` is the segment loop over `result` and `cur`. It is proved equal to the recursive specification `FormCodec.Walk`.
- `FormCodec.UnFlattenForm` runs the key loop and then `FormCodec.CleanArrays`. It is proved equal to `FormCodec.Unflatten`, which is the fold `FormCodec.Build` followed by `FormCodec.Cleaned`.

When `cur` reaches a primitive, the JavaScript module (strict mode) throws a `TypeError`. The model returns `Err(TypeError)`.

`validateColumns` is a loop, `Columns.ValidateColumns`, proved equal to the fold `Columns.Validate`. An element can get at most four messages, not five: a missing title and dataIndex excludes the "dataIndex is not a string" check, since both read the same `dataIndex`.

`normalizeColumns` is the function `Columns.NormalizeColumns`. `ColumnBuilder` is the class `ColumnBuilding.ColumnBuilder`: its `column` record is a `map` field that the setters reassign.

The code and its documentation disagree on numeric segments. The comment at `src/utils.ts:3` and the test at `tests/utils.test.ts:29-33` expect `"items,0,name"` to give `items[0].name`. The code builds `items.items[0].name`, and a key ending in an index loses its value. The model follows the code. `FormCodecFindings` exhibits both discrepancies and gives a corrected walk with its properties proved (see Findings).

## Model

| member | source | states |
|---|---|---|
| JsValues.NatToString | src/utils.ts:44-47 | the numeral of an index is a numeric segment that `Number` reads back as that index; it has no leading zero |
| JsValues.NumericSegRoundTrip | src/utils.ts:19-22 | every numeric segment is the numeral of the index it denotes (String after Number is the identity) |
| JsValues.NumericSegInjective | src/utils.ts:44-48 | distinct numeric keys denote distinct indices, so no two keys write the same array slot |
| JsValues.NumeralOfIndex | src/utils.ts:46-48 | a numeric key writes slot i exactly when it is the numeral of i |
| TreePaths.WithChild | src/utils.ts:21-28 | after one property or index write, that step leads to the written value |
| TreePaths.WithChildTwice | src/utils.ts:21-28 | writing the same step twice leaves the second write |
| TreePaths.AtAppend | src/utils.ts:23-28 | descending along p then q is descending along p + q |
| TreePaths.AtReplace | src/utils.ts:23-28 | after a write through `cur`, reading below `cur` sees the written subtree |
| TreePaths.ReplaceReplace | src/utils.ts:23-28 | a write below `cur` after a write at `cur` equals one write of the combined subtree at `cur` |
| FormCodec.SplitComma | src/utils.ts:12 | `key.split(',')` gives at least one segment, no segment has a comma, and joining with commas gives the key back |
| FormCodec.SetElement | src/utils.ts:22 | `arr[n] = x` puts x at n, lengthens the array to n+1 when n is past the end with holes between, and keeps every other slot |
| FormCodec.Descend | src/utils.ts:16-29 | one segment step leaves a node for `cur` to move to |
| FormCodec.IndexInArray | src/utils.ts:19-23 | at an index segment on an array `cur`, `cur` moves to element n of the array held in element parts[i-1] of `cur` |
| FormCodec.WalkKey | src/utils.ts:12-30 | the loop that moves `cur` down the segments and writes through it computes exactly the recursive walk, error included |
| FormCodec.ResumeStart | src/utils.ts:13-15 | before the first segment, `cur` is the root and the rest of the loop is the whole walk |
| FormCodec.ResumeStuck | src/utils.ts:19-28 | when `cur` cannot take the next segment (it is not an object, and not an array reached by an index at an index segment), the rest of the loop fails with that value |
| FormCodec.WalkStepResume | src/utils.ts:15-30 | one iteration written through `cur` leaves the outcome of the rest of the loop unchanged (the loop invariant) |
| FormCodec.MaxIndex | src/utils.ts:45-48 | the largest index among the numeric keys, which fixes the array length |
| FormCodec.NumericKeysLayout | src/utils.ts:43-50 | the array has each key's value at index Number(k), a hole wherever no key names the index, and ends with a present element |
| FormCodec.CleanArrays | src/utils.ts:34-54 | the in-place cleanup computes exactly the bottom-up cleaned value |
| FormCodec.CleanedElements | src/utils.ts:35-36 | an array whose elements were cleaned one by one, holes kept, is the cleaned array |
| FormCodec.CleanedFields | src/utils.ts:37-51 | an object whose values were cleaned in place becomes the array of its numeric keys, or stays that object |
| FormCodec.KeysToArray | src/utils.ts:45-49 | the writes `arr[Number(k)] = obj[k]`, in any key order, build the same array |
| FormCodec.KeyWritten | src/utils.ts:46-48 | one more `arr[Number(k)] = obj[k]` keeps the array equal to what the keys written so far determine |
| FormCodec.AllKeysWritten | src/utils.ts:45-49 | once every key is written, the array is the one all the keys determine |
| FormCodec.ArrayOfKeysInsert | src/utils.ts:46-48 | one more key write keeps the array equal to what the keys written so far determine |
| FormCodec.MaxIndexInsert | src/utils.ts:46-48 | one more key raises the largest index to its own when it is larger |
| FormCodec.UnFlattenForm | src/utils.ts:7-57 | the key loop followed by the cleanup returns exactly the specified decoding, and stops at the first failing key |
| FormCodec.BuildStopsAtError | src/utils.ts:10-31 | once a key throws, the whole call fails with that error |
| FormCodec.FilterEmptyValues | src/utils.ts:64-75 | a key is kept iff it is in the input and its value is not '', null or undefined; kept values are unchanged (0 and false survive) |
| FormCodecProps.SplitWithoutComma | src/utils.ts:12 | a key without a comma is a single segment |
| FormCodecProps.SplitAtFirstComma | src/utils.ts:12 | splitting "a,b" gives a followed by the split of b |
| FormCodecProps.SplitJoin | src/utils.ts:12 | splitting the comma-join of comma-free segments gives the segments back |
| FormCodecProps.SplitPair | src/utils.ts:12 | "a,b" with comma-free a and b splits into [a, b] |
| FormCodecProps.BuildOne | src/utils.ts:10-31 | a form with one key is that key's walk from the empty result |
| FormCodecProps.BuildSnoc | src/utils.ts:10-31 | one more key walks from the result of the earlier keys, and an earlier failure is kept |
| FormCodecProps.RecordOfKeys | src/utils.ts:10 | the plain record has exactly the entries' keys |
| FormCodecProps.RecordOfEntries | src/utils.ts:10 | with distinct keys the plain record holds exactly the entries' keys, each with its entry's value |
| FormCodecProps.BuildFlatKeys | src/utils.ts:15-25 | keys without commas write their values straight into the result |
| FormCodecProps.UnflattenFlatKeys | src/utils.ts:15-25 | single-segment keys with clean values decode to the record unchanged, or to an array when every key is numeric |
| FormCodecProps.CleanedCleanObject | src/utils.ts:37-51 | for an object with clean values, cleaning only chooses between object and array |
| FormCodecProps.RecordOfClean | src/utils.ts:25 | a record of clean values has only clean values |
| FormCodecProps.WalkNamedPair | src/utils.ts:24-28 | "p,q" puts the value at result[p][q]: a falsy slot at p becomes a fresh object, an object slot is extended, a primitive fails |
| FormCodecProps.BuildSharedPrefix | src/utils.ts:24-28 | "p,a" and "p,b" merge into one object under p |
| FormCodecProps.WalkNamedStep | src/utils.ts:26-28 | a named non-last segment enters the slot, or a fresh object when the slot is falsy, and stores the rest of the walk there |
| FormCodecProps.SetElementTwice | src/utils.ts:22-23 | a write to an index after the placeholder write there keeps the later value |
| FormCodecProps.ReplaceIndexed | src/utils.ts:19-23 | after a numeric segment, `cur` is the element, and a write through it lands in that element of cur[parts[i-1]] |
| FormCodecProps.WalkIndexedStep | src/utils.ts:19-23 | a numeric non-last segment takes the array from cur[parts[i-1]] (inside the object already entered), enters the element (a fresh object if falsy) and stores the rest of the walk at that index |
| FormCodecProps.ReplaceInArray | src/utils.ts:19-23 | when `cur` is an array, a write through the moved `cur` lands in element n of its element parts[i-1] |
| FormCodecProps.WalkIndexInArrayStep | src/utils.ts:19-23 | an index segment after an index segment, on an array `cur`: the element parts[i-1] becomes an array if it is not one, its element n is entered (a fresh object if falsy) and the rest of the walk is stored there |
| FormCodecProps.ArrayThroughIndex | src/utils.ts:15-28 | from {p: {p: [[x]]}} with x not an array, "p,0,0,q" replaces x by an array and gives {p: {p: [[[{q: v}]]]}} |
| FormCodecProps.WalkEntersField | src/utils.ts:26-28 | a walk that enters the truthy field p of {p: child} stores the rest of the walk under p |
| FormCodecProps.WalkEntersElementZero | src/utils.ts:19-23 | an index 0 segment after p, on {p: [one]} with one truthy, enters one and stores the rest of the walk at index 0 |
| FormCodecProps.ArrayThroughIndexInner | src/utils.ts:19-25 | at the array [x], the segments "0,q" give [[{q: v}]] |
| FormCodecProps.WalkLastNamed | src/utils.ts:24-25 | a named last segment writes the value into the object `cur` points at |
| FormCodecProps.WalkLastIndex | src/utils.ts:19-23 | a numeric last segment writes only the placeholder object at the index |
| FormCodecProps.DescendIgnoresValue | src/utils.ts:19-28 | every step other than a named last segment is the same whatever the value |
| FormCodecProps.WalkIndexedFromEmpty | src/utils.ts:19-28 | from an empty result, "p,n,q" builds {p: {p: [holes, {q: v}]}} |
| FormCodecProps.WalkIndexedInner | src/utils.ts:19-25 | inside the object entered for p, "n,q" builds {p: [holes, {q: v}]} |
| FormCodecProps.PathsInIndexedResult | src/utils.ts:19-23 | in that result the value sits at p.p[n].q, and p[n] does not exist |
| FormCodecProps.TrailingIndexDropsValue | src/utils.ts:19-25 | when the last segment is numeric, the walk's outcome does not depend on the value at all |
| FormCodecProps.CleanedIsClean | src/utils.ts:34-54 | no object in the cleaned value, at any depth, still has only numeric keys |
| FormCodecProps.CleanFixed | src/utils.ts:34-54 | a clean value is left unchanged by the cleanup |
| FormCodecProps.CleanedIdempotent | src/utils.ts:34-54 | cleaning twice is cleaning once |
| FormCodecProps.CleanedScalar | src/utils.ts:53 | scalars and functions are returned unchanged |
| FormCodecProps.CleanedArray | src/utils.ts:35-36 | arrays are mapped element-wise with the same length and the holes kept |
| FormCodecProps.CleanedNumericObject | src/utils.ts:43-50 | a non-empty object with only numeric keys becomes an array with each cleaned value at its index and holes elsewhere |
| FormCodecProps.CleanedOtherObject | src/utils.ts:37-51 | any other object, the empty one included, stays an object with the same keys and cleaned values |
| FormCodecProps.UnflattenIsClean | src/utils.ts:56 | every decoded form is clean |
| FormCodecFindings.SplitItemKey | src/utils.ts:12 | "p,n,q" splits into its three segments |
| FormCodecFindings.FirstItemAsWritten | src/utils.ts:19-23 | as written, "p,0,q" alone decodes to {p: {p: [{q: x}]}} |
| FormCodecFindings.SecondItemInner | src/utils.ts:19-25 | as written, inside p the key "p,1,q" looks the array up under p again and appends {q: y} to it |
| FormCodecFindings.SecondItemAsWritten | src/utils.ts:19-28 | as written, "p,1,q" enters p, then looks the array up under p again, and appends {q: y} there |
| FormCodecFindings.BuildItemsAsWritten | src/utils.ts:10-31 | as written, "p,0,q" and "p,1,q" build p.p[0].q and p.p[1].q |
| FormCodecFindings.CleanRecord | src/utils.ts:37-51 | a one-key record with a non-numeric key and a clean value is clean |
| FormCodecFindings.CleanList | src/utils.ts:35-36 | a list of clean values is clean |
| FormCodecFindings.UnflattenItemsAsWritten | src/utils.ts:7-57 | as written, the decoded "items,0,name"/"items,1,name" form is {items: {items: [{name}, {name}]}} |
| FormCodecFindings.BuildTrailingIndexAsWritten | src/utils.ts:19-23 | as written, "p,n" stores an empty object at p.p[n] and the value nowhere |
| FormCodecFindings.TrailingIndexInner | src/utils.ts:19-23 | as written, inside the fresh object for p a trailing index stores an empty placeholder under p |
| FormCodecFindings.UnflattenTagsAsWritten | src/utils.ts:7-57 | as written, "tags,0" decodes to {tags: {tags: [{}]}} whatever the value |
| FormCodecFindings.FreshFor | src/utils.ts:21-27 | the fresh container for a step has the kind the step needs |
| FormCodecFindings.WriteStep | src/utils.ts:22-25 | a corrected write: the step then leads to the value, and every other step of the container is unchanged |
| FormCodecFindings.WalkIntended | src/utils.ts:3 | the corrected walk leaves a container of the kind its first step needs |
| FormCodecFindings.BuildIntended | src/utils.ts:10-31 | the corrected walk phase always yields an object |
| FormCodecFindings.IntendedGetAfterPut | src/utils.ts:3 | after the corrected walk of a key, reading along the path the key denotes (items[0].name for "items,0,name") gives back the value |
| FormCodecFindings.BuildIntendedGetLast | src/utils.ts:10-31 | the last entry's value can always be read back from the corrected result at its key's path |
| FormCodecFindings.IntendedAgreesOnNamedKeys | src/utils.ts:24-28 | for keys without numeric segments, wherever the code as written succeeds, the corrected walk gives the same result |
| FormCodecFindings.IntendedNamedStep | src/utils.ts:26-28 | corrected, a named non-last segment enters the slot when it holds an object and a fresh object otherwise |
| FormCodecFindings.WalkOkEnterable | src/utils.ts:19-28 | as written, a walk that succeeds starts at a node that can take its first segment: an object, or an array at an index segment after an index segment |
| FormCodecFindings.BuildIntendedSnoc | src/utils.ts:10-31 | the corrected walk phase handles one key at a time, from the result of the earlier keys |
| FormCodecFindings.FirstItemIntended | src/utils.ts:3 | corrected, "p,0,q" alone builds {p: [{q: x}]} |
| FormCodecFindings.SecondItemIntended | src/utils.ts:3 | corrected, "p,1,q" appends {q: y} to the list under p |
| FormCodecFindings.BuildItemsIntended | src/utils.ts:3 | corrected, "p,0,q" and "p,1,q" build the list p[0].q, p[1].q |
| FormCodecFindings.UnflattenItemsIntended | src/utils.ts:3 | corrected, the "items,0,name"/"items,1,name" form decodes to {items: [{name}, {name}]} |
| FormCodecFindings.BuildTrailingIndexIntended | src/utils.ts:19-25 | corrected, "p,n" stores the value at p[n] |
| FormCodecFindings.UnflattenTagsIntended | src/utils.ts:19-25 | corrected, "tags,0" decodes to {tags: [value]} |
| Columns.AppendIf | src/utils.ts:215-237 | running one more check, later in order than all before it, keeps the problems in check order and adds exactly that problem when it fails |
| Columns.ChecksFacts | src/utils.ts:215-237 | the five field checks report exactly those that fail, in check order, and at most four, because the first two cannot both fail |
| Columns.FieldChecks | src/utils.ts:215-237 | the conditions the code tests on `col.title`, `col.dataIndex`, `col.name`, `col.order` and `col.component` are exactly the five checks |
| Columns.FieldProblemsFacts | src/utils.ts:215-237 | an object descriptor is reported for exactly the checks it fails, in check order, at most four |
| Columns.ElementProblems | src/utils.ts:209-237 | a descriptor is reported for a problem iff it fails that check; a non-object gets exactly one message; messages follow check order; at most four |
| Columns.ColumnsProblems | src/utils.ts:208-238 | problems come in element order, each at a position inside the list |
| Columns.Validate | src/utils.ts:198-244 | `valid` iff `errors` is empty; a non-array gives exactly the one array message; otherwise one message per problem |
| Columns.RenderAppend | src/utils.ts:208-238 | the messages of two runs of problems are the two message lists, one after the other |
| Columns.RenderTaggedSnoc | src/utils.ts:210-236 | pushing one more problem pushes its message |
| Columns.RenderStep | src/utils.ts:215-237 | one check of an element: pushing its message when it fails gives the messages of the problems so far plus this one |
| Columns.CheckColumn | src/utils.ts:209-237 | the sequence of checks and pushes for one element gives exactly that element's messages |
| Columns.ColumnsProblemsSnoc | src/utils.ts:208 | one more element adds its own problems after the earlier ones (holes add none) |
| Columns.ValidateColumns | src/utils.ts:198-244 | the `forEach` loop pushing onto `errors` returns exactly the specified validation |
| Columns.IssueOf | src/utils.ts:208-238 | position i is reported for p iff element i is present and fails check p |
| Columns.IssueOfLast | src/utils.ts:208-238 | the issues of a list are those of all but its last element, plus the last element's own |
| Columns.TaggedMembership | src/utils.ts:210-236 | an issue belongs to an element's messages iff it carries that element's position and one of its problems |
| Columns.ValidIffAllPass | src/utils.ts:240-243 | a list is valid iff every present descriptor passes every check |
| Columns.ValidSingle | src/utils.ts:208-243 | a list of one descriptor has exactly that descriptor's problems, and is valid iff it passes every check |
| Columns.ProblemsOfTwo | src/utils.ts:208-238 | a list of two descriptors has the problems of the first, then those of the second |
| Columns.NonObjectReportedOnce | src/utils.ts:209-212 | a non-object element is reported for NotAnObject and for nothing else |
| Columns.ArraySpread | src/utils.ts:253 | spreading an array gives only numeric keys |
| Columns.StringSpread | src/utils.ts:253 | spreading a string gives only numeric keys |
| Columns.NormalizeColumn | src/utils.ts:252-276 | the copy only adds keys, only the four filled keys, only with truthy values; every other key keeps its value |
| Columns.ExtendsTrans | src/utils.ts:255-273 | two fill steps that each touch only the filled keys, with truthy values, together do the same |
| Columns.FillsExtend | src/utils.ts:255-273 | the four fill steps in turn touch only `name`, `label`, `hideInTable` and `fieldProps`, and only with truthy values |
| Columns.UnfilledKept | src/utils.ts:253-275 | every key outside the four filled ones keeps the value of the spread copy |
| Columns.NormalizeColumns | src/utils.ts:251-277 | same length as the input, holes where the input has holes |
| Columns.NormalizeName | src/utils.ts:256-258 | a truthy name is kept; a falsy one is replaced by a truthy dataIndex; afterwards name is truthy iff name or dataIndex was |
| Columns.NormalizeLabel | src/utils.ts:261-263 | a truthy label is kept; a falsy one is replaced by a truthy title; afterwards label is truthy iff label or title was |
| Columns.NormalizeHideInTable | src/utils.ts:266-268 | hideInTable changes iff visible is false and hideInTable is undefined, and then becomes true |
| Columns.NormalizeFieldProps | src/utils.ts:271-273 | fieldProps changes iff component is truthy and fieldProps falsy, to the default; a truthy component always ends with truthy fieldProps |
| Columns.NormalizeColumnIdempotent | src/utils.ts:252-276 | normalising a normalised descriptor changes nothing |
| Columns.NameSettled | src/utils.ts:256-258 | on a normalised descriptor, the name step changes nothing |
| Columns.LabelSettled | src/utils.ts:261-263 | on a normalised descriptor, the label step changes nothing |
| Columns.HideInTableSettled | src/utils.ts:266-268 | on a normalised descriptor, the hideInTable step changes nothing |
| Columns.FieldPropsSettled | src/utils.ts:271-273 | on a normalised descriptor, the fieldProps step changes nothing |
| Columns.NormalizeColumnsIdempotent | src/utils.ts:251-277 | `normalizeColumns` twice equals once |
| Columns.NormalizeNonObject | src/utils.ts:209-216 | a non-object descriptor and its spread copy are both invalid |
| Columns.NormalizeObject | src/utils.ts:215-237 | the normalised copy fails every check the original fails, and newly fails only the name check, when name came from a non-string dataIndex |
| Columns.NormalizeKeepsValidity | src/utils.ts:251-277 | a descriptor passes validation iff its normalised copy does |
| Columns.CompleteDescriptor | src/utils.ts:215-237 | a descriptor with non-empty string title and dataIndex passes every check |
| Columns.ValidateGoodExample | src/utils.ts:198-244 | two complete descriptors: valid, no errors |
| Columns.OnlyHideInSearch | src/utils.ts:215-217 | a descriptor with neither title nor dataIndex gets exactly that message |
| Columns.NumericDataIndex | src/utils.ts:220-222 | a numeric dataIndex gets exactly the dataIndex-type message |
| Columns.FirstMessage | src/utils.ts:216 | the missing-field message of the first element reads "第 1 列: 必须提供 title 或 dataIndex" |
| Columns.SecondMessage | src/utils.ts:221 | the dataIndex-type message of the second element reads "第 2 列: dataIndex 必须是字符串" |
| Columns.FirstTwoMessages | src/utils.ts:216-221 | the messages read "第 1 列: …" and "第 2 列: …" with 1-based positions |
| Columns.ValidateBadExample | src/utils.ts:198-244 | those two descriptors: not valid, exactly two messages |
| Columns.NameExample | src/utils.ts:256-258 | {title: 'ID', dataIndex: 'id'} gets name 'id' |
| Columns.LabelExample | src/utils.ts:261-263 | {title: 'User ID', dataIndex: 'id'} gets label 'User ID' |
| Columns.HiddenExample | src/utils.ts:266-268 | visible: false with no hideInTable sets hideInTable to true |
| ColumnBuilding.WidthValue | src/utils.ts:356-359 | a width is a number or a string |
| ColumnBuilding.ColumnBuilder.constructor | src/utils.ts:283 | a new builder holds the empty record |
| ColumnBuilding.ColumnBuilder.Create | src/utils.ts:370-372 | `create()` returns a fresh builder with the empty record |
| ColumnBuilding.ColumnBuilder.Title | src/utils.ts:285-288 | writes only `title` and returns the same builder |
| ColumnBuilding.ColumnBuilder.DataIndex | src/utils.ts:290-293 | writes only `dataIndex` and returns the same builder |
| ColumnBuilding.ColumnBuilder.Name | src/utils.ts:295-298 | writes only `name` and returns the same builder |
| ColumnBuilding.ColumnBuilder.Label | src/utils.ts:300-303 | writes only `label` and returns the same builder |
| ColumnBuilding.ColumnBuilder.HideInSearch | src/utils.ts:305-308 | writes only `hideInSearch` (true by default) and returns the same builder |
| ColumnBuilding.ColumnBuilder.HideInTable | src/utils.ts:310-313 | writes only `hideInTable` (true by default) and returns the same builder |
| ColumnBuilding.ColumnBuilder.Order | src/utils.ts:315-318 | writes only `order` and returns the same builder |
| ColumnBuilding.ColumnBuilder.Component | src/utils.ts:320-326 | writes `component`, and `fieldProps` only when they are given; returns the same builder |
| ColumnBuilding.ColumnBuilder.DefaultValue | src/utils.ts:328-331 | writes only `defaultValue` and returns the same builder |
| ColumnBuilding.ColumnBuilder.Required | src/utils.ts:333-336 | writes only `required` (true by default) and returns the same builder |
| ColumnBuilding.ColumnBuilder.Rules | src/utils.ts:338-341 | writes only `rules` and returns the same builder |
| ColumnBuilding.ColumnBuilder.Placeholder | src/utils.ts:343-349 | sets fieldProps.placeholder, starting from an empty fieldProps when it is falsy and keeping its other keys otherwise |
| ColumnBuilding.ColumnBuilder.CustomRender | src/utils.ts:351-354 | writes only `customRender` and returns the same builder |
| ColumnBuilding.ColumnBuilder.SetWidth | src/utils.ts:356-359 | writes only `width` and returns the same builder |
| ColumnBuilding.ColumnBuilder.SetAlign | src/utils.ts:361-364 | writes only `align` ('left', 'center' or 'right') and returns the same builder |
| ColumnBuilding.ColumnBuilder.Build | src/utils.ts:366-368 | returns a copy of the record, with every setter-written field of its declared type |
| ColumnBuilding.WellTypedProblems | src/utils.ts:282-368 | a record the builder made can fail only the title-or-dataIndex check and the component check |
| ColumnBuilding.TitledValid | src/utils.ts:282-368 | a record the builder made, with a truthy title and no component, is a valid column list on its own |
| ColumnBuilding.ChainExample | src/utils.ts:282-373 | create().title().dataIndex().hideInSearch().width().align().build() gives exactly those five fields, and the column is valid |
| ColumnBuilding.ComponentExample | src/utils.ts:320-349 | component() with fieldProps stores both; a later placeholder() overwrites only the placeholder key and keeps allowClear |
| ColumnBuilding.CopyExample | src/utils.ts:366-368 | a record returned by build() is not changed by later top-level setter calls such as `title` |

## Left out

- `debounce` and `throttle` (src/utils.ts:83-121) are not modelled: they depend on timers and the event loop, not on data.
- `ProTableError` (src/utils.ts:126-135) is not modelled: it is a trivial `Error` subclass.
- `handleError` (src/utils.ts:143-172) is not modelled: it calls `console.error`, `JSON.stringify` and `instanceof` against host classes.
- `safeExecute` (src/utils.ts:180-191) is not modelled: it wraps a promise.
- Aliasing is not modelled; every value in the model is a value:
  - `cleanArrays` rewrites objects in place, including value objects the caller passed in, which line 25 stores by reference.
  - `placeholder` mutates a `fieldProps` object that was passed to `component`.
  - `build()` shares nested objects with the builder. A `placeholder` call after `build()` writes into the `fieldProps` object the built record already holds; the model's built record does not change.
- `Number()` leniency is not modelled. It also accepts `""`, `" 1"`, `"01"`, `"1.5"`, `"-1"`, `"1e3"` and `"0x1f"` as numbers. The model treats only canonical decimal numerals as array indices, both in the walk and in `cleanArrays`; any other segment is a property name.
- JavaScript lists integer-like keys first in `Object.keys` order; the model does not. The flat input is a sequence of entries taken in the given order.
- Numbers are integers. Floating point, `NaN`, `Infinity`, symbols and bigints are not modelled.
- The maximum array length (2^32 - 1) is not modelled; indices are unbounded.
- Inherited properties are not modelled. For example, `cur["toString"]` reads the prototype's function, while the model reads a missing own property as undefined.
- In `normalizeColumns`, spreading a string yields one key per Dafny character (a Unicode scalar value), not per UTF-16 code unit.
- `normalizeColumns` called on something other than an array is not modelled; the model's input is the array's elements. In the code, `null` and `undefined` throw a TypeError on reading `map`, other values without a `map` method throw `columns.map is not a function`, and an object with its own `map` method does not throw: that method's result is returned.
- FormCodec.Walk: when `cur` is a function, or an array at a segment that is not an index following an index, JavaScript stores a named property on it. The model returns `Err(UnmodelledProperty)` instead of that result. An array at an index segment after an index segment is modelled: `cur[parts[i-1]]` is then one of its elements. When `cur` reaches a primitive, the model returns `Err(TypeError)` where the code throws.
- ColumnBuilding.ColumnBuilder: the setters take the TypeScript parameter types (string, boolean, number, `number | string`, the three alignments, a function handle). A plain JavaScript caller could store any value; the class invariant `WellTyped` assumes it does not.

## Findings

| source | as written | input that shows it | evidently intended | confidence | as-written member | corrected member |
|---|---|---|---|---|---|---|
| src/utils.ts:19-23 | at a numeric segment, `cur` is already inside the object for `parts[i-1]`, and the array is looked up again as `cur[parts[i-1]]` | `{"items,0,name": "Item1", "items,1,name": "Item2"}` gives `{items: {items: [{name: "Item1"}, {name: "Item2"}]}}` | `{items: [{name: "Item1"}, {name: "Item2"}]}`, per the comment at src/utils.ts:3 and tests/utils.test.ts:29-33 | not executed; proved on the model | FormCodecFindings.UnflattenItemsAsWritten | FormCodecFindings.UnflattenItemsIntended |
| src/utils.ts:19-25 | a numeric last segment takes the index branch, which writes only a placeholder `{}`; `values[key]` is never stored | `{"tags,0": "a"}` gives `{tags: {tags: [{}]}}` | `{tags: ["a"]}` | not executed; proved on the model | FormCodecFindings.UnflattenTagsAsWritten | FormCodecFindings.UnflattenTagsIntended |
