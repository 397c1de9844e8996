# appReducer, modelled in Dafny

The reducer `appReducer` (index.ts:144-225) holds an in-memory snapshot of
keyed collections. Each collection maps document ids to nested JSON-like
documents or `null`. The reducer takes an action:

- `init` replaces the whole state with the payload's `init_app_state`.
- `write` applies an ordered batch of writes to a shallow copy of the
  previous snapshot.
  - A `set` write stores a document (or `null`) in the slot
    `[collection_id][doc_id]`.
  - An `update` write runs field updates, in order, on the document in its
    slot. Each field update first re-reads the document, then walks all but
    the last segment of its `field_path`. At the last segment it does one of
    three things:
    - overwrites the field;
    - appends the values the field's string array does not yet include;
    - removes every occurrence of the listed values from that array.
- Any other action type throws.

The model has five modules:

- `Wrappers`: `Option` and `Result`.
- `StringArrays`: the two array transforms. Each is given as a pure
  specification (`AppendMissing` is a union-style append, `RemoveAll` is a
  filter). The source's loops are methods that are proved to compute them:
  `PushMissing` (the `includes`/`push` loop) and `SpliceOccurrences` (the
  backward `while (index--)` scan that splices at `indexOf`).
- `Documents`: values, the field-path walk and the field updates. The
  method `ApplyFieldUpdate` is the source's walk-then-modify body. It is
  proved equal to `FieldUpdateResult`. Assigning through the reference the
  walk ends on becomes `Graft`, which rebuilds the document along the path.
- `Reducer`: snapshots, writes and actions. `Reduce` is the reducer as a
  function. The method `AppReducer`, with the per-write method
  `PerformWrite`, follows the source's loops and is proved equal to it.
- `Scenarios`: concrete batches worked through the model.

A reduction ends in one of two ways:

- `Reduced(state, reported)`: `reported` lists, in order, the documents
  whose update was skipped because they were missing or `null`. These are
  the keys the source logs with `console.error`.
- `Threw(error, partial)`: the source mutates the copied snapshot in place,
  so the snapshot standing when the error is thrown is carried in the error.
  It holds every write before the failing one, and every field update before
  the failing one.

The errors are:

- `ImproperFieldPath`: a missing intermediate key.
- `PropertyNotAnArray`: a transform of a field that is not an array.
- `IncorrectActionType`: an action type other than `init` and `write`.
- `RuntimeTypeError`: the JavaScript TypeErrors the code runs into. These
  are: indexing a collection that does not exist, reading a property of a
  `null` intermediate, assigning a property of `null` or a primitive, and a
  `write` action without `writes`.

Where the code does something a reader might not expect, the model
follows the code:

- An `update` or a `set` on a collection that does not exist throws a
  TypeError (index.ts:161, 166). One might expect the update to be a no-op,
  like an update of a missing document, and the set to create the
  collection.
- Only the first two `/`-separated segments of `document_path` are used
  (index.ts:156). A path without `/` addresses the document id
  `"undefined"`.
- An empty `field_path` targets the key `"undefined"` (index.ts:180).
- Unrecognised `write_type`, `field_update_type` and `field_transform_type`
  tags fall through every branch and do nothing. They are modelled by
  `OtherWrite`, `OtherFieldUpdate` and `OtherTransform`. An unrecognised
  transform still gets the non-array check first (index.ts:187).

## Model

| member | source | states |
|---|---|---|
| StringArrays.IndexOf | index.ts:205 | The result is the first index holding the value, or -1 exactly when the value is absent. |
| StringArrays.SpliceOne | index.ts:204-206 | `splice(start, 1)` removes exactly the element at an in-range start and shifts the rest down; a start past the end removes nothing. |
| StringArrays.PushMissing | index.ts:192-197 | The `includes`/`push` loop computes `AppendMissing` of the array and the values. |
| StringArrays.AppendMissingKeepsPrefix | index.ts:192-197 | The original array is kept as a prefix of the result. |
| StringArrays.AppendMissingCounts | index.ts:192-197 | An element of the original array keeps its count. A value not in the original occurs exactly once if it is listed and not at all otherwise, however often the list repeats it. |
| StringArrays.AppendMissingNoNewDuplicates | index.ts:192-197 | An array without duplicates stays without duplicates. |
| StringArrays.AppendedAreNew | index.ts:194-195 | Every appended element was absent from the original array and comes from the values. |
| StringArrays.AppendMissingOrder | index.ts:193-195 | Appended elements appear in the order of their first occurrence in the input values. |
| StringArrays.Without | index.ts:201-208 | Removing one value leaves no occurrence of it. |
| StringArrays.SpliceOccurrences | index.ts:199-209 | The backward scan that splices at `indexOf` computes `RemoveAll`, a filter of the listed values. |
| StringArrays.SpliceKeepsOthers | index.ts:203-206 | Splicing out any occurrence of the value, not only the scanned one, leaves the same array once that value is removed. |
| StringArrays.RemoveAllSnoc | index.ts:200 | Removing the values one after another equals removing them all at once. |
| StringArrays.RemoveAllCounts | index.ts:199-209 | No listed value survives. Every other element keeps its number of occurrences. |
| StringArrays.RemoveAllConcat | index.ts:199-209 | Removal distributes over concatenation, so survivors keep their relative order. |
| StringArrays.RemoveAllNothingListed | index.ts:199-209 | An array holding none of the listed values is unchanged. |
| Documents.Intermediate | index.ts:172 | The walked segments are the path without its last segment, or none for an empty path. |
| Documents.EmptyPathTargetsUndefined | index.ts:172-183 | An overwrite with an empty field path walks nothing and sets the top-level key `"undefined"` of the document. |
| Documents.Walk | index.ts:172-179 | The walk succeeds exactly when plain lookup finds the path, and it reaches the looked-up value. It fails only with an improper path or, on `null`, a TypeError. |
| Documents.Graft | index.ts:183 | Writing through the walked reference keeps the root an object. |
| Documents.ApplyAtParent | index.ts:181-191 | Keys other than the final key are unchanged. An object parent stays an object. A failed or no-op update on a non-object parent leaves it as it was. |
| Documents.ApplyFieldUpdate | index.ts:170-211 | The walk-then-modify body, with the transform loops, computes `FieldUpdateResult`. |
| Documents.GetConcat | index.ts:172-179 | Looking up `a + b` is looking up `a` and then `b` from there. |
| Documents.WalkStopsAt | index.ts:172-177 | The walk stops at the first node that does not hold the next key: a TypeError on `null`, an improper field path otherwise. |
| Documents.GraftReaches | index.ts:183 | After the graft the path leads to the new value. |
| Documents.GraftFrame | index.ts:183 | Every path that branches off the grafted path reads as before. |
| Documents.StuckWalkFails | index.ts:172-177 | A field update whose walk meets a missing key fails with the walk's error. |
| Documents.OverwriteSetsField | index.ts:181-184 | An overwrite succeeds exactly when the target's parent is an object. The target then holds the value, created or replaced whatever its old shape. |
| Documents.TransformNeedsArray | index.ts:185-211 | A transform succeeds exactly when the target holds a string array. The target then holds the transformed array. |
| Documents.TransformOnNonArrayFails | index.ts:187-191 | On an object parent whose target is not an array, a transform fails with the non-array error. |
| Documents.SiblingsUnchanged | index.ts:183 | At the parent, every key other than the final one reads as before. |
| Documents.FieldUpdateFrame | index.ts:181-211 | A successful field update changes nothing outside its target path. |
| Documents.OverwriteKeepsParent | index.ts:181-184 | After an overwrite the target's parent is still an object. |
| Documents.ApplyUpdatesAppend | index.ts:168-170 | Field updates run in order, each on the document the earlier ones left. An error stops the rest and keeps what was done. |
| Documents.TwoOverwrites | index.ts:168-184 | Two overwrites of one field both succeed, and the field ends with the second value. |
| Documents.LaterOverwriteWins | index.ts:168-184 | The later of two overwrites wins, so swapping two different values gives a different document. |
| Reducer.SplitPath | index.ts:156 | Neither id contains a separator. |
| Reducer.Assign | index.ts:161 | Assigning a slot changes that slot and nothing else. |
| Reducer.AssignTwice | index.ts:161 | A second assignment of a slot overrides the first. |
| Reducer.AssignSame | index.ts:166-170 | Writing a slot's own value back changes nothing. |
| Reducer.PerformWrite | index.ts:156-218 | One pass of the write loop (split, then set or update with re-read and write-back) computes `ApplyWrite`. |
| Reducer.AppReducer | index.ts:144-225 | The reducer computes `Reduce` for every snapshot and action. |
| Reducer.ApplyWritesAppend | index.ts:155 | Writes run in order: the rest of a batch starts from the snapshot the first part produced, and reports are appended in order. |
| Reducer.ThrowIsFinal | index.ts:155-176 | Once a prefix of the batch has thrown, the batch ends with that error and snapshot. |
| Reducer.StopIsFinal | index.ts:168-176 | Once a prefix of the field updates has stopped, the later ones do not run. |
| Reducer.AbortKeepsPrefix | index.ts:154-177 | A failing write throws with the state its predecessors produced, plus its own partial effect. Nothing after it is applied. |
| Reducer.InitReplacesState | index.ts:148-149 | `init` ignores the previous snapshot and installs the payload's state unchanged. |
| Reducer.UnknownActionTypeThrows | index.ts:222-224 | Any other action type throws and replaces nothing. |
| Reducer.SplitPathOf | index.ts:156 | A path `c/d...` splits into `c` and the segment after the first separator. |
| Reducer.SplitPathOfJoin | index.ts:156 | `c/d` and `c/d/anything` both address collection `c`, document `d`. |
| Reducer.SplitPathWithoutSeparator | index.ts:156 | A path without separator addresses document `"undefined"` in the collection named by the whole path. |
| Reducer.SetWriteReplacesSlot | index.ts:158-161 | A `set` replaces exactly its slot (`null` included), leaves every other collection whole and every other document of its collection as it was. On a missing collection it throws. |
| Reducer.SetWriteIdempotent | index.ts:158-161 | Repeating a `set` gives the same result as doing it once. |
| Reducer.UpdateOfAbsentDocIsReported | index.ts:163-217 | An `update` of a missing or `null` document changes nothing, is reported, and the batch continues. On a missing collection it throws. |
| Reducer.UpdateWriteOnlyTouchesItsDocument | index.ts:163-170 | A successful `update` changes only its own slot (every other collection is unchanged as a whole, and its own collection gains no key), which holds the result of running its field updates in order. |
| Scenarios.AppendScenario | index.ts:192-197 | Appending `["b","c"]` to `["a","b"]` gives `["a","b","c"]`. |
| Scenarios.RemoveScenario | index.ts:199-209 | Removing `"a"` from `["a","a","b"]` gives `["b"]`. |
| Scenarios.SetScenario | index.ts:158-161 | A `set` into an empty existing collection creates the document. |
| Scenarios.NullDocumentScenario | index.ts:214-217 | An `update` of a `null` document is reported and changes nothing. |
| Scenarios.MissingKeyFails | index.ts:172-177 | Overwriting `profile.missing.x` when `missing` is absent fails with an improper field path. |
| Scenarios.MissingIntermediateScenario | index.ts:172-177 | The same failure inside a write action throws and leaves the snapshot unchanged. |
| Scenarios.AbortScopeScenario | index.ts:154-177 | In `[set u2, failing update u1]` the error carries the snapshot with the `set` applied. |

## Left out

- Only `appReducer` and the types it consumes (index.ts:103-143) are modelled. `getAppdropConfig` (device information, a bundle file read, `JSON.parse`, `require` of a platform file) and the React context with its initial state are I/O and UI plumbing. They are not part of this model.
- `console.error` is not output here. Each skipped key is appended to the `reported` list.
- Aliasing: the source makes a shallow copy with `Object.assign`, so the collections and documents of the previous state are mutated in place and shared. The model uses values. It claims nothing about the caller's previous-state object after a write.
- Numbers are stored and never computed on, so they are opaque integers; floating point is not modelled.
- Property reads on primitives and arrays treat every key as absent. `length`, numeric indexes of strings and arrays, and keys inherited from `Object.prototype` are not modelled. A walk through such a value therefore fails with an improper field path.
- Documents.ApplyAtParent: an overwrite whose parent is an array, a string or another primitive is modelled as a TypeError. JavaScript would set a property on an array, and on a primitive outside strict mode it would silently ignore the write.
- Array fields hold strings only (`StrArr`). The transforms compare with `===`, which on strings is equality. Arrays of other element types are not modelled.
- Reducer.InitReplacesState: an `init` without `init_app_state` returns `undefined` in the source. The model installs the empty snapshot. A later `write` behaves the same on both, because `Object.assign` from `undefined` copies nothing.
- Error messages are reduced to their kind. The thrown text (collection id, document id, field path) is not modelled.
