# Filter mixin of a States Language interpreter, modelled in Dafny

This project models the Filter behaviour that the interpreter composes onto every state
(`src/states/mixins/filter.js`). It reshapes the JSON value flowing through a state in three
steps, following the "Input and Output Processing" and "Reference Paths" parts of the
Amazon States Language:

- **InputPath** (`FilterInput`) narrows the raw input to the effective input. An explicit
  `null` gives `{}`; otherwise the path (default `$`) is extracted by the path resolver.
- **ResultPath** (`FilterResult`, walking with `Merge`) merges the action's result into the
  effective input. A missing path and `$` give the result itself, and `null` gives the
  effective input. Any other path is parsed into segments and walked over the input object:
  - root markers are skipped;
  - an intermediate member access descends into an existing object, or creates `{}` where
    the member is missing;
  - the last member access is overwritten with the result, whatever it held;
  - an existing non-object intermediate, or any segment that is not a child member access,
    fails with `States.ResultPathMatchFailure`.
- **OutputPath** (`FilterOutput`) narrows the merged value. An explicit `null` gives `{}`;
  otherwise the path (default `$`) is extracted.

`Run` composes them in the source's order: input filter, then the wrapped action on the
effective input, then the result merge of the action's `output` into that same effective
input, then the output filter. The action's other result fields are kept.

Files:

- `results.dfy`: `Option` and `Result`.
- `json.dfy`: the `JSON` datatype and `Lookup` along a chain of member names.
- `segments.dfy`: parsed path segments (`{exprType, value, operation, scope}`) and their
  classification.
- `filter.dfy`: the filters, the ResultPath walk and the composed run.
- `merge_properties.dfy`: the walk's properties, stated through `Lookup`.
- `filter_properties.dfy`: properties of each filter and of the composed run.

The path resolver is outside the model. Its parser (`Parser`, a path string to its segments)
and its query (`Query`, a value and a path string to the extracted value) are parameters with
no assumed behaviour. The wrapped action is a parameter too: a function from the effective
input to a `StepResult` (its `output` plus the other fields) or a `Failure`.

The source decides which segment is the last one with `index === paths.length - 1`, taken
over the whole parsed list with the root markers included. So a member access followed only
by root markers is walked as an intermediate: it is created as `{}` or must already be an
object, and the result is placed nowhere. `Merge` does the same. The path parser is not
expected to produce such a list, and the Reference Path lemmas assume the path ends in a
member access (`EndsInMember`).

## Model

| member | source | states |
|---|---|---|
| Filter.FilterInput | src/states/mixins/filter.js:28-42 | InputPath null gives `{}`; any other InputPath gives the query of the raw input at its path, `$` when missing |
| Filter.FilterResult | src/states/mixins/filter.js:44-148 | a missing ResultPath and `$` give the result; null gives the effective input; the only failure is States.ResultPathMatchFailure; a successful walk yields an object keeping every top-level member of the input |
| Filter.FilterOutput | src/states/mixins/filter.js:150-165 | OutputPath null gives `{}`; any other OutputPath gives the query of the merged value at its path, `$` when missing |
| Filter.Merge | src/states/mixins/filter.js:84-147 | the only failure is States.ResultPathMatchFailure; a successful walk over an object yields an object that keeps every top-level member of the input; a successful walk over a non-object returns it unchanged |
| Filter.Run | src/states/mixins/filter.js:15-26 | once the action succeeds on the effective input, the run succeeds exactly when merging the action's output into that input succeeds, and otherwise fails with States.ResultPathMatchFailure; on success the output is the output filter applied to the merged value and the action's other fields are kept; OutputPath null makes the output `{}`; an action failure is the run's failure, unchanged |
| FilterProperties.InputNullDiscardsRawInput | src/states/mixins/filter.js:28-39 | InputPath null makes the effective input `{}` for every raw input |
| FilterProperties.InputAbsentMeansRoot | src/states/mixins/filter.js:28-41 | a missing InputPath behaves exactly as `$`, the query of the raw input at `$` |
| FilterProperties.ResultAbsentOrRootIsResult | src/states/mixins/filter.js:44-69 | a missing ResultPath and ResultPath `$` both give the action's result, independent of the effective input |
| FilterProperties.ResultNullKeepsInput | src/states/mixins/filter.js:52-61 | ResultPath null gives the effective input, independent of the result |
| FilterProperties.OutputNullOrAbsent | src/states/mixins/filter.js:150-164 | OutputPath null gives `{}`; a missing OutputPath behaves exactly as `$` |
| FilterProperties.ReferencePathMerge | src/states/mixins/filter.js:84-147 | for a member-access ResultPath on an object input: success iff no member on the way to the last one holds a non-object; on success the path looks up the result, and every chain of names off the path is unchanged |
| FilterProperties.NonReferencePathFails | src/states/mixins/filter.js:85-145 | a ResultPath with any segment other than a root marker or child member access fails with States.ResultPathMatchFailure |
| FilterProperties.RunSeesOnlyFilteredInput | src/states/mixins/filter.js:15-25 | two raw inputs with the same effective input give the same run outcome |
| FilterProperties.RunWithoutFiltersIsIdentity | src/states/mixins/filter.js:15-25 | with no filtering fields, an identity root query and a pass-through action, the run returns its raw input |
| FilterProperties.RunDiscardsResultWhenNull | src/states/mixins/filter.js:15-25 | with ResultPath null the output filter is applied to the effective input and the action's output is dropped |
| FilterProperties.RunFailsOnObstructedResultPath | src/states/mixins/filter.js:125-131 | a successful action whose ResultPath passes through an existing non-object fails the run with States.ResultPathMatchFailure |
| FilterProperties.RunPlacesResultInOutput | src/states/mixins/filter.js:15-25 | end to end with a member-access ResultPath and root input and output queries: the run succeeds iff the action does and the path is unobstructed in the input; the output then holds the action's output at the path and every chain off the path is unchanged |
| FilterProperties.RunOutputsResultWhenAbsent | src/states/mixins/filter.js:15-25 | with no ResultPath the output filter is applied to the action's output and the other fields are kept |
| FilterProperties.RunPropagatesActionFailure | src/states/mixins/filter.js:25 | a failing action fails the run with its own error, for every input and ResultPath |
| FilterProperties.ResultPathCreatesMember | src/states/mixins/filter.js:133-137 | `$.x` merges `{b: 1}` into `{}` as `{x: {b: 1}}` |
| FilterProperties.ResultPathRejectsPrimitiveIntermediate | src/states/mixins/filter.js:125-131 | `$.x.y` on `{x: "not-an-object"}` fails with States.ResultPathMatchFailure |
| MergeProperties.MergePlacesResult | src/states/mixins/filter.js:101-104 | on success the path's member names look up the result, and everything below it, whatever the last member held before |
| MergeProperties.MergeBuildsObjectSpine | src/states/mixins/filter.js:125-137 | on success every member on the way to the last one holds an object, kept if it existed and created if missing |
| MergeProperties.MergeLeavesOtherPathsAlone | src/states/mixins/filter.js:125-137 | on success every chain of names that neither prefixes nor extends the path looks up what it did before, at every level |
| MergeProperties.MergeSucceedsIffUnobstructed | src/states/mixins/filter.js:125-131 | for a member-access path the walk succeeds exactly when no proper prefix of it looks up null, a primitive or an array |
| MergeProperties.MergeOverwrites | src/states/mixins/filter.js:101-104 | merging a second result along the same path equals merging only the second one |
| MergeProperties.MergeIsIdempotent | src/states/mixins/filter.js:101-104 | merging the same result twice equals merging it once |
| MergeProperties.MergeWithoutMemberReadKeepsTarget | src/states/mixins/filter.js:85-91 | a successful walk whose first non-root segment is not a member access (or that has none) returns its target unchanged, object or not |
| MergeProperties.NonReferenceSegmentFails | src/states/mixins/filter.js:140-143 | any segment that is neither a root marker nor a child member access, at any position, fails the walk |
| MergeProperties.RootSegmentsAreSkipped | src/states/mixins/filter.js:88-91 | for a path not ending in a root marker, the walk equals the walk over its non-root segments |

## Left out

- Path parsing and querying: the resolver's source is not part of this model. `parse` is a total function parameter, so a path that fails to parse is not modelled. `query` is uninterpreted, so JSONPath evaluation is not modelled.
- Resolver failures and empty matches: `Query` is a total function to a JSON value. A query that throws is not modelled: at InputPath it would escape `run` before any promise exists, and at OutputPath it would reject the run's promise. A query that matches nothing and yields no JSON value is not modelled either.
- In-place mutation and aliasing: the source mutates the effective input, which may share structure with the caller's data. The model returns a new value. Any partial update left behind by a walk that fails after creating intermediates is not modelled either.
- Self-referencing results: when the action's output is the effective input object itself, as in a Pass state, or any object the walk passes through on the ResultPath, the source's assignment at the last member makes that object contain itself, a cyclic structure. `Merge` places a finite copy instead: `{a: 1}` merged with `$.x` gives `{a: 1, x: {a: 1}}`, and an output that is the input's `a` merged with `$.a.b` gives `a` a finite copy of its old self under `b`.
- Non-object effective input under a member-access ResultPath after a successful action: in the source, assigning to a primitive throws a TypeError rather than the merge failure, and an array root takes a named property. `FilterResult` requires the effective input to be an object whenever the walk reads a member of it, and `Run` requires it only when the action also succeeds; a failing action never reaches the merge.
- JavaScript prototype members: objects are plain maps. Names such as `constructor` or `__proto__`, which a JavaScript object resolves through its prototype, are treated like any other missing or present member.
- Error representation: the classification travels in the error's message. It is modelled as the single constructor `ResultPathMatchFailure`. Action failures are `ActionFailure(error, cause)` and pass through unchanged.
- Promise plumbing in `run`: `.then` and `Object.assign` become plain function composition and a fresh `StepResult` record carrying the action's other fields.
- Numbers: JSON numbers are integers; floating point is not modelled.
- The rest of the interpreter: the graph factory, the state variants, and the Catch and Timeout layers are not part of this model.
