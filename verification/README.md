# View processing and mutable documents, modelled in Dafny

This project models two parts of the Firebase JavaScript SDK.

**The Realtime Database view processor** (`ViewProcessor`). A view keeps two
caches of the data at one location:

- the *event cache*, which is what listeners see;
- the *server cache*, which is what the server has sent.

Each cache is a node plus two flags: `fullyInitialized` and `filtered`. An
operation is one of these:

- an overwrite or merge from the user or from the server;
- an acknowledgement or revert of a user write;
- a listen-complete.

`applyOperation` picks the handler for the operation's kind and source. The
handler builds a new view cache and appends child changes to an accumulator.
Then at most one whole-value change is added. The handlers are modelled as
functions that return the new cache with the changes they append
(`Processor`). Source assertion errors become `Failure`.

The parts of the source that work step by step are modelled as methods:

- the two-pass merge loops;
- `applyMerge_`;
- the tree-building loops of `ackUserWrite_`;
- `applyOperation` with its accumulator, an object updated in place.

Each method is proved to compute what the functional model computes
(`ProcessorMethods`). `ProcessorProps` proves the guarantees of a call:

- which cache an operation may touch;
- when the input cache comes back unchanged;
- that `fullyInitialized` is never lost (except on revert);
- that the value change comes last and at most once;
- the order in which merges apply their parts.

The collaborators whose code is not part of this model are record values of
functions. That covers the node filter and its indexed filter, and the
pending-write overlay (`WriteTreeRef`). Every property holds for every such
filter and overlay; the filter-flag lemmas additionally assume `Valid` (see
Left out).

**The Firestore `MutableDocument`**: a class with
- a constant key;
- a document type (invalid, found, no document, unknown);
- a version and data;
- a pending-write state (synced, local mutations, committed mutations).

The static constructors and the `convertTo*` / `set*` methods assign these
fields in place and return the same object. The predicates are read-only
queries over them (`Documents`).

Files:
- `common.dfy`: `Option`, `Result`, sorted association lists.
- `snap.dfy`: paths and snapshot nodes.
- `immutable_tree.dfy`: the path-keyed merge tree and its `foreach` order.
- `view_cache.dfy`: cache nodes, view caches, changes, operations, collaborators, the accumulator.
- `view_processor.dfy`: the handlers as functions.
- `view_processor_methods.dfy`: the loop-based procedures.
- `view_processor_props.dfy`: the properties.
- `document.dfy`: the document state machine.

## Model

| member | source | states |
|---|---|---|
| `ProcessorMethods.ApplyOperation` | packages/database/src/core/view/ViewProcessor.ts:72-169 | It uses a fresh accumulator, runs the one handler the operation selects, and appends the value change if one is due. The result equals `Process`: the same cache, the same changes, the same failures. |
| `Processor.Dispatch` | packages/database/src/core/view/ViewProcessor.ts:80-165 | User overwrites and merges never fail. An overwrite or merge from neither the user nor the server fails with "Unknown source.". A shadowed ack returns the cache unchanged with no changes. A listen-complete marks the server cache complete when it is at the root, and otherwise keeps its completeness. |
| `Processor.Process` | packages/database/src/core/view/ViewProcessor.ts:72-168 | A call fails exactly when the selected handler fails. |
| `ProcessorProps.UnknownSourceFails` | packages/database/src/core/view/ViewProcessor.ts:80-135 | An overwrite or merge from neither the user nor the server fails with "Unknown source.". |
| `ProcessorProps.UserOperationKeepsServer` | packages/database/src/core/view/ViewProcessor.ts:80-135 | A user overwrite or merge never fails and leaves the server cache unchanged, so no server handler runs. A complete event cache stays complete. |
| `ProcessorProps.UserFoldKeepsServer` | packages/database/src/core/view/ViewProcessor.ts:496-523 | A sequence of user overwrites leaves the server cache unchanged and keeps a complete event cache complete. |
| `Processor.MaybeAddValueEvent` | packages/database/src/core/view/ViewProcessor.ts:171-190 | The child changes come first, unchanged, followed by at most one value change. The value change is added iff the new event cache is complete and one of these holds: there are child changes, the old event cache was incomplete, a leaf or empty node changed, or the priority changed. It carries the new event node. |
| `ProcessorProps.ValueEventIsLast` | packages/database/src/core/view/ViewProcessor.ts:166-190 | In any result, a value change can only be the last change. Its node is the new event node, and that cache is complete. |
| `ProcessorProps.NoValueEventWhenUnchanged` | packages/database/src/core/view/ViewProcessor.ts:176-189 | An unchanged event cache with no child changes produces no changes. |
| `Processor.EventNodeAfterServerEvent` | packages/database/src/core/view/ViewProcessor.ts:204-304 | Fails exactly when the path is empty without complete server data, or when a `.priority` path has more segments. |
| `Processor.EventCacheAfterServerEvent` | packages/database/src/core/view/ViewProcessor.ts:192-311 | Under a shadowing write the cache comes back unchanged with no changes. Otherwise only the event cache changes: `fullyInitialized` becomes old-or-root and `filtered` becomes the filter's flag. It fails exactly in the cases above. |
| `Processor.ServerCacheAfterOverwrite` | packages/database/src/core/view/ViewProcessor.ts:321-375 | There is no update exactly when all of these hold: the path is below a child, the node is not newly filtered, the cache is incomplete for the path, and the path is deeper than one. Otherwise `fullyInitialized` becomes old-or-root and `filtered` comes from the filter used. |
| `Processor.ServerOverwrite` | packages/database/src/core/view/ViewProcessor.ts:313-388 | An ignored update returns the cache unchanged. Otherwise the server cache becomes the one `ServerCacheAfterOverwrite` computes. Neither `fullyInitialized` flag is lost. Under a shadowing write the event cache is unchanged and nothing is reported. The call fails exactly when the update is not ignored, not shadowed, and its path is `.priority` followed by more segments. |
| `ProcessorProps.ShadowedServerOverwriteIsSilent` | packages/database/src/core/view/ViewProcessor.ts:199-203 | A server overwrite under a local write never fails. It leaves the event cache as it was and reports no change. |
| `ProcessorProps.DeepIncompleteServerOverwriteIsNoOp` | packages/database/src/core/view/ViewProcessor.ts:343-351 | A server overwrite deeper than one level, at a path the server cache is incomplete for, returns the view cache unchanged with no changes, provided the server node is not newly filtered (the filter used does not filter, or the server cache is already filtered). |
| `Processor.UserOverwrite` | packages/database/src/core/view/ViewProcessor.ts:390-473 | The server cache is unchanged. The event `fullyInitialized` becomes old-or-root. A `.priority` write reports nothing and keeps `filtered`. A recomputed child equal to the old one returns the input cache unchanged. |
| `ProcessorProps.UnchangedUserOverwriteIsNoOp` | packages/database/src/core/view/ViewProcessor.ts:453-469 | A user overwrite that recomputes the child the event cache already shows returns the view cache unchanged with no changes. |
| `Processor.InView` | packages/database/src/core/view/ViewProcessor.ts:475-480 | A write path is in view whenever the event cache is complete and unfiltered. Otherwise it is in view exactly when it is non-empty and the event node has its first key as a child. |
| `Processor.UserMerge` | packages/database/src/core/view/ViewProcessor.ts:482-526 | The user merge: a user overwrite for each merge entry, first the entries in view, then the others. What it promises is stated by `UserMergeAppliesEachEntryOnce` (every entry once), `UserMergeInViewFirst` (in-view entries first) and `UserFoldKeepsServer` (the server cache is kept and a complete event cache stays complete). |
| `Processor.EntriesInView` | packages/database/src/core/view/ViewProcessor.ts:497-523 | The selected entries are entries of the merge, and each is in view (or out of view) as asked. |
| `ProcessorMethods.UserMergePass` | packages/database/src/core/view/ViewProcessor.ts:496-523 | One `foreach` pass applies, in order, a user overwrite for each entry selected by the original cache. The cache and the appended changes are those of that fold. |
| `ProcessorMethods.ApplyUserMerge` | packages/database/src/core/view/ViewProcessor.ts:482-526 | The two passes together compute `UserMerge`: the cache, and the changes appended after those already tracked. |
| `ProcessorProps.EntriesInViewPartition` | packages/database/src/core/view/ViewProcessor.ts:497-523 | The in-view and out-of-view selections together hold every entry exactly once (a multiset identity). |
| `ProcessorProps.UserMergeAppliesEachEntryOnce` | packages/database/src/core/view/ViewProcessor.ts:496-525 | The user merge order is a permutation of the merge tree's entries. |
| `ProcessorProps.UserMergeInViewFirst` | packages/database/src/core/view/ViewProcessor.ts:499-513 | No entry in view comes after an entry out of view. |
| `Processor.MergedNode` | packages/database/src/core/view/ViewProcessor.ts:528-533 | An empty merge leaves the node as it was. `MergeLastEntryWins` states that the last entry's node is found at its path, and `ApplyMerge` that the loop computes it. |
| `ProcessorMethods.ApplyMerge` | packages/database/src/core/view/ViewProcessor.ts:528-533 | The loop computes `MergedNode`: the node updated once per merge entry, in `foreach` order. |
| `ProcessorProps.MergeLastEntryWins` | packages/database/src/core/view/ViewProcessor.ts:529-531 | After the merge, the last entry's path holds the last entry's node. |
| `Processor.ServerMerge` | packages/database/src/core/view/ViewProcessor.ts:535-611 | The server merge: an empty, incomplete server cache is left alone; otherwise one-key server overwrites, existing keys first, then new keys. What it promises is stated by `ServerMergeSelection` (which children are applied), `ServerMergeExistingFirst` (their order), `ServerMergeNeverFails`, `ServerMergeMonotone` (completeness is kept) and `ServerMergeFilterFlag` (the filtered flag). |
| `Processor.ServerMergePass` | packages/database/src/core/view/ViewProcessor.ts:570-608 | A pass takes only merge children: those whose key the server node has, or new keys that are not unknown deep merges. |
| `ProcessorMethods.ServerMergePassLoop` | packages/database/src/core/view/ViewProcessor.ts:569-608 | One `inorderTraversal` pass applies a server overwrite of the merged child for each selected key. The fold never fails; the pass ends with the fold's cache and appends its changes. |
| `ProcessorMethods.ApplyServerMerge` | packages/database/src/core/view/ViewProcessor.ts:535-611 | Returns early when there is no server data. Otherwise it runs two passes. It computes `ServerMerge`, which always succeeds: the same cache, and the changes appended after those already tracked. |
| `ProcessorMethods.FoldResultsAppend` | packages/database/src/core/view/ViewProcessor.ts:559-610 | The second pass starts from the cache the first pass left, and the changes are concatenated. A failure aborts everything after it. |
| `ProcessorProps.ServerFoldSucceeds` | packages/database/src/core/view/ViewProcessor.ts:577-605 | Every sequence of the one-key server overwrites a server merge performs succeeds: the assertions of lines 207-210 and 241-244 cannot fire for a one-key path. |
| `ProcessorProps.ServerMergeNeverFails` | packages/database/src/core/view/ViewProcessor.ts:121-134 | A server merge from the server never fails. |
| `ProcessorProps.ServerMergeWithoutDataIsNoOp` | packages/database/src/core/view/ViewProcessor.ts:546-551 | A server merge against an empty, incomplete server cache returns the view cache unchanged with no changes. |
| `ProcessorProps.PassTakesAll` | packages/database/src/core/view/ViewProcessor.ts:570-608 | Every child a pass's condition accepts is applied. |
| `ProcessorProps.ServerMergeSelection` | packages/database/src/core/view/ViewProcessor.ts:588-592 | A merge child is applied iff the server node has its key or it is not an unknown deep merge. Nothing else is applied. |
| `ProcessorProps.ServerMergeExistingFirst` | packages/database/src/core/view/ViewProcessor.ts:570-592 | No existing key is applied after a new key. |
| `ProcessorProps.ServerFoldMonotone` | packages/database/src/core/view/ViewProcessor.ts:577-605 | A sequence of server overwrites loses neither `fullyInitialized` flag. |
| `ProcessorProps.ServerMergeMonotone` | packages/database/src/core/view/ViewProcessor.ts:535-611 | A server merge loses neither `fullyInitialized` flag. |
| `ProcessorMethods.ChildrenTree` | packages/database/src/core/view/ViewProcessor.ts:649-652 | The loop builds `SetChildren`, one `set` per child in key order. What that tree holds is proved in `SetChildrenContents`. |
| `ProcessorProps.SetChildrenContents` | packages/database/src/core/view/ViewProcessor.ts:649-652 | For children with distinct keys, the tree holds at a one-key path `[k]` exactly the child stored under `k`, if any. It holds nothing at the root or at any deeper path. |
| `ProcessorMethods.AckedTree` | packages/database/src/core/view/ViewProcessor.ts:667-676 | The loop builds `AckedServerData`, one `set` per affected path the server cache is complete for. What that tree holds is proved in `AckedServerDataContents`. |
| `ProcessorProps.AckedServerDataContents` | packages/database/src/core/view/ViewProcessor.ts:667-676 | At a path `p`, the tree holds the server data at `ackPath + p` when `p` is an affected path and the server cache is complete for `ackPath + p`. It holds nothing at any other path. |
| `Processor.AckWrite` | packages/database/src/core/view/ViewProcessor.ts:621-623 | Acknowledging a path that a write still shadows returns the cache unchanged with no changes. |
| `ProcessorMethods.AckUserWrite` | packages/database/src/core/view/ViewProcessor.ts:613-687 | The method computes `AckWrite`: the cache, the appended changes, and the same failure with the same message. |
| `ProcessorProps.ShadowedAckIsNoOp` | packages/database/src/core/view/ViewProcessor.ts:613-623 | An ack or revert (lines 718-719) of a shadowed path returns the view cache unchanged with no changes. |
| `Processor.ListenCompleted` | packages/database/src/core/view/ViewProcessor.ts:689-708 | The server node and `filtered` are kept. `fullyInitialized` becomes old-or-root. |
| `ProcessorProps.ListenCompleteMarksServer` | packages/database/src/core/view/ViewProcessor.ts:695-700 | The same at the level of a whole call. |
| `Processor.EventNodeAfterRevert` | packages/database/src/core/view/ViewProcessor.ts:726-800 | Fails exactly when the path is the root or `.priority`, the server cache is incomplete and its node is a leaf. |
| `Processor.RevertWrite` | packages/database/src/core/view/ViewProcessor.ts:710-810 | A shadowed revert returns the cache unchanged. Otherwise the server cache is unchanged. The event `fullyInitialized` is recomputed as server-complete or a write at the root. |
| `ProcessorProps.RevertCanLoseEventCompleteness` | packages/database/src/core/view/ViewProcessor.ts:801-808 | A revert can turn a complete event cache incomplete, so the monotonicity below excludes reverts. |
| `ProcessorProps.ServerOverwriteFilterFlag` | packages/database/src/core/view/ViewProcessor.ts:93-99 | For a server overwrite that is not ignored, the server cache ends up `filtered` exactly when the view's filter filters and the data is tagged or lies below the root of an already filtered cache. The same flag rule governs lines 324-326 and 371-375. This assumes the indexed filter filters nothing (`Valid`). |
| `ProcessorProps.UntaggedRootOverwriteUnfilters` | packages/database/src/core/view/ViewProcessor.ts:93-99 | An untagged server overwrite at the root always succeeds. It leaves the server cache complete and unfiltered: a filtered node is marked unfiltered again. |
| `ProcessorProps.ServerFoldFilterFlag` | packages/database/src/core/view/ViewProcessor.ts:324-326 | Each server overwrite of a merge either keeps the `filtered` flag or sets it to whether the data is filtered and the view's filter filters. |
| `ProcessorProps.ServerMergeFilterFlag` | packages/database/src/core/view/ViewProcessor.ts:123-125 | A server merge keeps `filtered`, or sets it to "tagged or already filtered, and the view's filter filters". An untagged merge into an unfiltered cache leaves it unfiltered. |
| `ProcessorProps.AckWriteFilterFlag` | packages/database/src/core/view/ViewProcessor.ts:625-626 | An acknowledgement filters the server data only when it was already filtered. With a filtering view filter, the flag is kept as it was. |
| `ProcessorProps.AckKeepsFilterFlag` | packages/database/src/core/view/ViewProcessor.ts:136-146 | The same at the level of a whole call. |
| `ProcessorProps.ServerCompletenessNeverLost` | packages/database/src/core/view/ViewProcessor.ts:371-375 | No operation turns a complete server cache incomplete. |
| `ProcessorProps.EventCompletenessNeverLost` | packages/database/src/core/view/ViewProcessor.ts:305-309 | No operation other than a revert turns a complete event cache incomplete. |
| `Documents.MutableDocument.constructor` | packages/firestore/src/model/document.ts:132-138 | Stores the five fields. |
| `Documents.MutableDocument.NewInvalidDocument` | packages/firestore/src/model/document.ts:144-152 | A fresh document with type INVALID, version min, empty data and state SYNCED. It is therefore not valid and has no pending writes. |
| `Documents.MutableDocument.NewFoundDocument` | packages/firestore/src/model/document.ts:158-170 | A fresh document with type FOUND, the given version and data, and state SYNCED. |
| `Documents.MutableDocument.NewNoDocument` | packages/firestore/src/model/document.ts:172-184 | A fresh document with type NO_DOCUMENT, the given version, empty data and state SYNCED. |
| `Documents.MutableDocument.NewUnknownDocument` | packages/firestore/src/model/document.ts:191-202 | A fresh document with type UNKNOWN, the given version, empty data and state HAS_COMMITTED_MUTATIONS. It therefore has pending writes. |
| `Documents.MutableDocument.ConvertToFoundDocument` | packages/firestore/src/model/document.ts:208-217 | Sets version, data, type FOUND and state SYNCED in place, keeps the key, and returns the same object. |
| `Documents.MutableDocument.ConvertToNoDocument` | packages/firestore/src/model/document.ts:223-229 | Sets version, empty data, type NO_DOCUMENT and state SYNCED in place, and returns the same object. |
| `Documents.MutableDocument.ConvertToUnknownDocument` | packages/firestore/src/model/document.ts:236-242 | Sets version, empty data, type UNKNOWN and state HAS_COMMITTED_MUTATIONS in place, and returns the same object. |
| `Documents.MutableDocument.SetHasCommittedMutations` | packages/firestore/src/model/document.ts:244-247 | Only the state changes, to HAS_COMMITTED_MUTATIONS. Type, version and data are untouched. |
| `Documents.MutableDocument.SetHasLocalMutations` | packages/firestore/src/model/document.ts:249-252 | Only the state changes, to HAS_LOCAL_MUTATIONS. Type, version and data are untouched. |
| `Documents.PendingWritesMeansUnsynced` | packages/firestore/src/model/document.ts:254-264 | There are pending writes iff the state is not SYNCED. Local and committed mutations are never both flagged. |
| `Documents.ValidMeansOneKind` | packages/firestore/src/model/document.ts:266-280 | A document is valid iff it is found, missing or unknown. At most one of these holds. |
| `Documents.IsEqualIsEquivalence` | packages/firestore/src/model/document.ts:282-291 | `isEqual` is reflexive, symmetric and transitive. |
| `Documents.IsEqualDistinguishesFields` | packages/firestore/src/model/document.ts:282-291 | Documents that differ in key, version, type, state or data are not equal. |
| `Documents.MutableDocument.Clone` | packages/firestore/src/model/document.ts:293-301 | A fresh document with all five fields copied, `isEqual` to the original in both directions. |

## Left out

- `assertIndexed` (ViewProcessor.ts:61-70): it depends on `Node.isIndexed`, which is not part of this model.
- The unknown-operation-type branch (ViewProcessor.ts:163-164): `Operation` is a closed datatype, so no operation of another type can be built.
- `NodeFilter`, the indexed filter, `WriteTreeRef` and `WriteTreeCompleteChildSource` are not modelled internally. Each is a record of function values, so limit windows, ranges and the write overlay are not modelled. The one assumption made about them is `Valid`: the indexed filter (the view's filter without its limit or range) filters nothing. Only the filter-flag lemmas require it.
- `ChildChangeAccumulator`: the model records child changes in the order they are tracked. The per-key collapsing (for example added-then-changed becoming added) is not part of this model.
- Nodes are simplified: a leaf holds a string, integer or boolean (JavaScript numbers are integers here), and a branch holds key-sorted children. Index-based ordering and the database's numeric-first key order are replaced by plain lexicographic key order. Node equality is structural.
- `ImmutableTree` is not part of this model; it is a value with key-sorted children. `foreach` is taken to walk post-order (children in key order, then the node's own value) and to visit every stored value, including a `false` in an acknowledged-write tree. `setTree` is taken to drop a child that it leaves with no value and no children. `get` is taken to read the value at a path.
- A user-merge entry at the root has no front key. It counts as in view exactly when the event cache is complete and unfiltered, which is what `isCompleteForChild` gives for a missing key.
- Each pair of `foreach` loops in `applyUserMerge_` and `applyServerMerge_` is one loop method, called once per pass with the pass's condition as a parameter.
- `compareDocumentsByField` (document.ts:318 onwards) depends on `valueCompare` over Firestore values, which is not part of this model.
- `MutableDocument.toString` is not modelled: it is `JSON.stringify` formatting.
- `ObjectValue` is a map from field names to scalar values. `data.clone()` is a value copy. `SnapshotVersion` is a (seconds, nanoseconds) pair whose minimum is (0, 0).
- `isEqual` takes another `MutableDocument` or null. Other implementations of the `Document` interface are not modelled.
