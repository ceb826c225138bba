# Sanity studio editor core: a Dafny model

This project models the decision and patch-building logic of six parts of the Sanity
studio, and proves properties of each:

- **Plugin composer** of the portable-text editor (`withPlugins`). It wraps an editor in
  a fixed chain of behaviour plugins, one chain for editable mode and a shorter one for
  read-only mode. It keeps a per-editor table of the pristine `apply`, `onChange` and
  `normalizeNode` so that `destroy` can put them back and clear the history. Its
  `subscribe` starts every subscription the plugins registered.
- **Command list** index arithmetic (`CommandListProvider`). It assigns dense indices to
  enabled items, handles wrap-around keyboard navigation, translates the active index
  back to a list position, and sets the ARIA attributes of rendered children.
- **Array-of-objects field** patch builders (`ArrayOfObjectsField`): change, insert, move,
  prepend, append and remove.
- **Reference input** (`ReferenceInput`). This covers the patches for choosing a search
  hit or creating a new target, clear and cancel-edit, the weak-reference warning, and
  the search state built up from search events.
- **Document form view** patch channel (`FormView`). It turns mutation and rebase events
  into patch messages, and publishes one empty message when a revision first appears.
- **Search strategy** selection (`createSearch`).

## How the model is organised

- `base.dfy`: `Option`, `Result`, and JavaScript truthiness of an optional flag.
- `plugins.dfy`:
  - Plugins are opaque named wrappers. A function identity is a native function with
    zero or more wrappers around it.
  - The editor is a record of its three function identities, a history, a subscription
    list and whether `destroy` is set.
  - The pristine table is a map keyed by the editor's identity.
- `command_list.dfy`:
  - `values` with optional `disabled` and `selected` flags.
  - `itemIndices` is computed by a loop that follows the studio's code. It is proved equal to a
    declarative definition: the number of enabled items before each position.
- `form_patch.dfy`:
  - The patch datatype and `prefixAll`.
  - `ApplyToArray`, a reference reading of the array patches the handlers emit:
    set-if-missing of `[]`, unset by `_key`, and insert before or after an index or a
    key. The handlers' patch lists are proved to perform the intended edit under this
    reading.
- `array_field.dfy`: the array field's handlers.
- `reference_input.dfy`:
  - The reference handlers.
  - A reference reading (`ApplyToRef`) of what their patches do to the reference object.
  - The search-state merge.
- `patch_channel.dfy`: the form view's message preparation. The render-by-render
  revision effect is modelled as a loop.
- `search.dfy`: strategy selection.

Library helpers and I/O are parameters:

- `ensureKey`, `getPublishedId`, `fromMutationPatches`, the GROQ parser, the text-search
  compatibility check, and `uuid()` for the fresh document id.
- The subscriptions each plugin registers.

How `destroy` behaves, as the code is written:

- `destroy` never removes the editor's entry from the pristine table. A second
  `destroy` therefore succeeds and changes nothing (`Plugins.DestroyTwice`).
- Calling `destroy` on an editor the composer never installed has no `destroy` function
  to call. In the studio's code that is a type error, not the "Could not find pristine versions
  of editor functions" error. The model keeps the two apart as `DestroyUndefined` and
  `MissingPristine`.

## Model

| member | source | states |
|---|---|---|
| Plugins.MaxBlocksLimit | packages/@sanity/portable-text-editor/src/editor/plugins/index.ts:74 | A missing or zero `maxBlocks` becomes -1. Any other value is passed on unchanged. |
| Plugins.ChainFor | packages/@sanity/portable-text-editor/src/editor/plugins/index.ts:101-142 | Editable mode uses all thirteen plugins, outermost first: schema types, object keys, mark model, block style, lists, placeholder block, utils, max blocks (with the limit from the options), undo/redo, patches, selections, editable API, insert break. Read-only mode holds exactly the editable plugins other than max-blocks, undo/redo and patches. It keeps the editable order of every pair except the lists, placeholder and utils plugins, whose order it reverses. |
| Plugins.WrapWith | packages/@sanity/portable-text-editor/src/editor/plugins/index.ts:103-142 | One plugin wraps each of the three intercepted functions and appends its own subscriptions. The editor keeps its identity, history and destroy flag. |
| Plugins.ApplyChain | packages/@sanity/portable-text-editor/src/editor/plugins/index.ts:103-142 | Nesting the plugin calls turns each intercepted function into the chain nested around it, first plugin outermost. The editor keeps its identity, history and destroy flag. |
| Plugins.NestLayers | packages/@sanity/portable-text-editor/src/editor/plugins/index.ts:103-142 | The nested chain adds exactly its plugins as wrappers, in chain order, above the unchanged native function. |
| Plugins.ApplyChainWraps | packages/@sanity/portable-text-editor/src/editor/plugins/index.ts:101-142 | Nesting `withA(withB(...(e)))` puts the chain around each intercepted function, first plugin outermost, over the same native function. It appends the plugins' subscriptions, innermost plugin first. |
| Plugins.Destroy | packages/@sanity/portable-text-editor/src/editor/plugins/index.ts:91-100 | Fails exactly when the editor has no `destroy` or no table entry. Otherwise it restores `apply`, `onChange` and `normalizeNode` from the saved entry and sets the history to empty undos and redos. It leaves the rest of the editor alone. |
| Plugins.Install | packages/@sanity/portable-text-editor/src/editor/plugins/index.ts:43-142 | Subscriptions restart from empty, then hold only this chain's registrations. The table gains the current functions only when the editor had no `destroy`; a re-install calls the existing `destroy` and leaves the entry as it was. The install fails exactly when that `destroy` finds no entry. Every intercepted function is the mode's chain around the saved pristine function. A re-install clears the history and a first install keeps it. |
| Plugins.Subscribe | packages/@sanity/portable-text-editor/src/editor/plugins/index.ts:118-147 | In read-only mode nothing starts. Otherwise every registered subscription starts once, in order, and the i-th teardown belongs to the i-th subscription. |
| Plugins.Unsubscribe | packages/@sanity/portable-text-editor/src/editor/plugins/index.ts:148-152 | The combined teardown calls every collected teardown once, in order. |
| Plugins.SubscribeThenUnsubscribe | packages/@sanity/portable-text-editor/src/editor/plugins/index.ts:143-152 | Subscribing and then calling the combined teardown calls exactly one teardown per started subscription, each belonging to that subscription, in start order. In read-only mode nothing starts and nothing is called. |
| Plugins.LifecycleKeepsPristine | packages/@sanity/portable-text-editor/src/editor/plugins/index.ts:50-100 | Start with an install on an unarmed editor, then run any sequence of installs and destroys. No step fails, and the table entry keeps the functions the editor had before any plugin. Each intercepted function is either that function or exactly one chain around it. |
| Plugins.TrackedRun | packages/@sanity/portable-text-editor/src/editor/plugins/index.ts:50-100 | Once the composer tracks an editor, installs and destroys preserve that invariant and never fail. |
| Plugins.DestroyTwice | packages/@sanity/portable-text-editor/src/editor/plugins/index.ts:91-100 | The entry survives `destroy`, so a second `destroy` succeeds and gives the same editor. |
| Plugins.ReinstallWrapsOnce | packages/@sanity/portable-text-editor/src/editor/plugins/index.ts:50-61 | For the three functions the table saves (`apply`, `onChange`, `normalizeNode`), two successive installs give the same functions, table and subscriptions as a single install with the second options. Wrappers never stack on those three. |
| CommandList.ActiveItemCount | packages/sanity/src/core/components/commandList/CommandListProvider.tsx:102 | The count is at most the number of values. It is zero exactly when every value is disabled, and the full length exactly when none is. |
| CommandList.ItemIndices | packages/sanity/src/core/components/commandList/CommandListProvider.tsx:115-125 | The running counter from -1 gives one entry per value. An entry is null exactly for a disabled value. Otherwise it is the number of enabled values before that position. |
| CommandList.DenseIndicesAreConsecutive | packages/sanity/src/core/components/commandList/CommandListProvider.tsx:102-125 | The non-null entries, read in order, are 0, 1, ..., `activeItemCount - 1`. |
| CommandList.DenseIndexOwner | packages/sanity/src/core/components/commandList/CommandListProvider.tsx:102-125 | Every index below the active count is held by some position. No other number is held, and no two positions hold the same index. |
| CommandList.IndexOf | packages/sanity/src/core/components/commandList/CommandListProvider.tsx:242 | `indexOf` gives the first position holding the index, or -1 when there is none. |
| CommandList.SetActiveIndex | packages/sanity/src/core/components/commandList/CommandListProvider.tsx:228-252 | The index becomes active. When scrolling is asked for and the index is below the active count, the scroll target is the enabled position with that many enabled values before it. Otherwise nothing is scrolled. |
| CommandList.SelectAdjacent | packages/sanity/src/core/components/commandList/CommandListProvider.tsx:257-270 | "next" gives i+1 below `count - 1` and wraps to 0 otherwise. "previous" gives i-1 above 0 and wraps to `count - 1` otherwise, which is -1 when nothing is enabled. On a non-empty list, from a valid index, both directions stay within [0, count). |
| CommandList.AdjacentInverse | packages/sanity/src/core/components/commandList/CommandListProvider.tsx:257-270 | On valid indices, "previous" undoes "next" and "next" undoes "previous". |
| CommandList.NextIsCyclic | packages/sanity/src/core/components/commandList/CommandListProvider.tsx:260-262 | Pressing "next" n times from a valid index i lands on (i + n) mod count. |
| CommandList.SelectedFlags | packages/sanity/src/core/components/commandList/CommandListProvider.tsx:131-133 | A value is marked unselected exactly when `selected` is explicitly false. True and undefined both count as selected. |
| CommandList.ChildAttributes | packages/sanity/src/core/components/commandList/CommandListProvider.tsx:178-190 | Only an enabled child gets ARIA attributes. Its `aria-posinset` is its dense index plus one, between 1 and `aria-setsize`, which is the active count. `aria-selected` follows the selected flags. The child's descendant id is derived from that same dense index. |
| CommandList.MarkedActive | packages/sanity/src/core/components/commandList/CommandListProvider.tsx:154-166 | While focused, a child is marked active exactly when it is enabled and its dense index is the active one. While blurred (active index null), exactly the disabled children are marked, because null equals null. A position past the end is never marked. |
| FormPatch.PrefixAll | packages/sanity/src/core/form/members/fields/ArrayOfObjectsField.tsx:93 | Prefixing moves every patch under the segment and changes nothing else about it. |
| FormPatch.StripPrefixAll | packages/sanity/src/core/form/members/fields/ArrayOfObjectsField.tsx:93 | Stripping the segment after prefixing gives back the original patches. |
| ArrayField.HandleChange | packages/sanity/src/core/form/members/fields/ArrayOfObjectsField.tsx:91-96 | Every emitted patch is addressed under the member name. Without that name, the batch is a set-if-missing of `[]` followed by the incoming patches. |
| ArrayField.HandleInsert | packages/sanity/src/core/form/members/fields/ArrayOfObjectsField.tsx:136-155 | An event with no items is an error with the studio's error message. Otherwise the batch is set-if-missing `[]`, then the keyed items inserted at the event's position and reference item, all under the member name. Focus goes to the field path plus the first item's key. The item opens unless `open` is false. |
| ArrayField.InsertPlacesItems | packages/sanity/src/core/form/members/fields/ArrayOfObjectsField.tsx:136-155 | Whether or not the field had a value, applying the insert batch places the keyed items at the index the event names (negative from the end), or before or after the item with the reference key. All other items stay in order. A reference key no item carries leaves the array unchanged. |
| ArrayField.HandleMoveItem | packages/sanity/src/core/form/members/fields/ArrayOfObjectsField.tsx:197-225 | No patch when the indices are equal, or when either item is missing or lacks a key. When the indices differ and both items have a key, the batch is exactly: unset the moved item by key, then insert it before the target when moving up or after it when moving down, all under the member name. |
| ArrayField.Moved | packages/sanity/src/core/form/members/fields/ArrayOfObjectsField.tsx:197-225 | A move takes the item out and places it at the target index. The length and the contents as a multiset are unchanged. |
| ArrayField.MoveReorders | packages/sanity/src/core/form/members/fields/ArrayOfObjectsField.tsx:215-222 | On an array with distinct keys, applying the move patches gives exactly the moved array. |
| ArrayField.ApplyMovePatches | packages/sanity/src/core/form/members/fields/ArrayOfObjectsField.tsx:216-220 | Unsetting the item and inserting it next to the target puts it at the target index. |
| ArrayField.TargetAfterRemoval | packages/sanity/src/core/form/members/fields/ArrayOfObjectsField.tsx:216-220 | After the moved item is unset, the target key is found one place earlier when moving down and at its old place when moving up. |
| ArrayField.HandlePrependItem | packages/sanity/src/core/form/members/fields/ArrayOfObjectsField.tsx:227-236 | Set-if-missing `[]`, then insert the keyed item before index 0, under the member name. |
| ArrayField.HandleAppendItem | packages/sanity/src/core/form/members/fields/ArrayOfObjectsField.tsx:237-246 | Set-if-missing `[]`, then insert the keyed item after index -1, under the member name. |
| ArrayField.PrependAndAppendPlaceItem | packages/sanity/src/core/form/members/fields/ArrayOfObjectsField.tsx:227-246 | Whether or not the field had a value, prepending puts the keyed item first and appending puts it last. |
| ArrayField.HandleRemoveItem | packages/sanity/src/core/form/members/fields/ArrayOfObjectsField.tsx:248-257 | The item's upload, if any, is cancelled and dropped, and the other uploads stay. One unset goes out, addressed to the field path plus the item key. |
| ArrayField.RemoveDropsItem | packages/sanity/src/core/form/members/fields/ArrayOfObjectsField.tsx:248-257 | For a top-level field, the removal patch drops exactly the items with that key. |
| ReferenceInput.FindHit | packages/sanity/src/core/form/inputs/ReferenceInput/ReferenceInput.tsx:125 | `find` gives the first hit with the id, or nothing when no hit has it. |
| ReferenceInput.HandleChange | packages/sanity/src/core/form/inputs/ReferenceInput/ReferenceInput.tsx:117-147 | An empty id gives a single unset. An id not among the hits is an error with the studio's error message. Otherwise the patches are: set-if-missing `{}`, `_type`, and `_ref` set to the published id. `_weak` is unset exactly when the hit is published and the schema is not weak, and set to true otherwise. `_strengthenOnPublish` is unset exactly when the hit is published, and set to the hit's type and the schema's weak flag otherwise. Focus moves to the field. |
| ReferenceInput.HandleCreateNew | packages/sanity/src/core/form/inputs/ReferenceInput/ReferenceInput.tsx:95-115 | The batch starts with set-if-missing `{}`. It sets `_type`, `_ref` to the fresh id, `_weak` to true, and `_strengthenOnPublish` to the option's type, the schema's weak flag and the template. The new document opens for editing and focus moves to the field. |
| ReferenceInput.HandleClear | packages/sanity/src/core/form/inputs/ReferenceInput/ReferenceInput.tsx:149-151 | Clearing removes the reference, whatever it held. |
| ReferenceInput.HandleCancelEdit | packages/sanity/src/core/form/inputs/ReferenceInput/ReferenceInput.tsx:153-157 | Cancelling clears the field exactly when it has no `_ref`. Otherwise it leaves the field unchanged. |
| ReferenceInput.SelectSetsReference | packages/sanity/src/core/form/inputs/ReferenceInput/ReferenceInput.tsx:132-140 | Whatever the field held, choosing a hit leaves a reference of the schema's type to the published id. Its weak flag and strengthen-on-publish marker follow from whether the hit is published and the schema is weak. |
| ReferenceInput.IsWeakRefToNonexistent | packages/sanity/src/core/form/inputs/ReferenceInput/ReferenceInput.tsx:262-265 | Only a "not found" target can be flagged. A reference that is not weak, or that is waiting to be strengthened on publish, is never flagged. A weak reference with no strengthen marker whose target is not found always is. |
| ReferenceInput.SelectedWeakRefToNonexistent | packages/sanity/src/core/form/inputs/ReferenceInput/ReferenceInput.tsx:262-265 | A chosen reference is flagged as a weak reference to a missing document exactly when its target is not found, was published when chosen, and the schema is weak. |
| ReferenceInput.CreateNewSetsReference | packages/sanity/src/core/form/inputs/ReferenceInput/ReferenceInput.tsx:99-107 | Creating a target gives a weak reference that waits for the target's publish. It is never flagged as a weak reference to a missing document. |
| ReferenceInput.QueryUpdates | packages/sanity/src/core/form/inputs/ReferenceInput/ReferenceInput.tsx:179-196 | A query first emits loading. It then emits its hits with the query, or on failure only an empty hit list. |
| ReferenceInput.Merge | packages/sanity/src/core/form/inputs/ReferenceInput/ReferenceInput.tsx:199-202 | Spreading an update over the state overwrites exactly the fields the update carries and keeps the others: loading sets only the flag; a result sets the hits, clears the flag and records the query; a failure empties only the hits. |
| ReferenceInput.Accumulate | packages/sanity/src/core/form/inputs/ReferenceInput/ReferenceInput.tsx:199-202 | Folding updates from the initial state never shows loading unless some update started a search. It never shows hits or a search string unless some result arrived. |
| ReferenceInput.AccumulateIsLastWrite | packages/sanity/src/core/form/inputs/ReferenceInput/ReferenceInput.tsx:199-202 | Starting from no hits and not loading, each field of the merged state comes from the last update that carries that field. |
| ReferenceInput.QueryOutcome | packages/sanity/src/core/form/inputs/ReferenceInput/ReferenceInput.tsx:175-208 | An answered query leaves its hits and query string in the state and stops loading. A failed query empties the hits, keeps the loading flag set, and keeps the previous query string. |
| PatchChannel.Present | packages/sanity/src/structure/panes/document/documentPanel/documentViews/FormView.tsx:217 | Every mutation's patch that is present is kept. |
| PatchChannel.PresentHasSource | packages/sanity/src/structure/panes/document/documentPanel/documentViews/FormView.tsx:217 | Every kept patch is the patch of some mutation. |
| PatchChannel.PresentConcat | packages/sanity/src/structure/panes/document/documentPanel/documentViews/FormView.tsx:217 | Filtering two lists joined is joining the two filtered lists. |
| PatchChannel.PresentKeepsOrder | packages/sanity/src/structure/panes/document/documentPanel/documentViews/FormView.tsx:217 | A mutation without a patch is dropped. One with a patch keeps its place among the others. |
| PatchChannel.PrepareMutationEvent | packages/sanity/src/structure/panes/document/documentPanel/documentViews/FormView.tsx:216-224 | A mutation message has the mutation type and the event's document as snapshot. Its patches are the conversion, under the event's origin, of the present patches. |
| PatchChannel.PrepareRebaseEvent | packages/sanity/src/structure/panes/document/documentPanel/documentViews/FormView.tsx:226-237 | A rebase message holds the converted remote patches first, then the converted local ones. Each list is filtered on its own. |
| PatchChannel.RebaseIsRemoteThenLocal | packages/sanity/src/structure/panes/document/documentPanel/documentViews/FormView.tsx:226-237 | A rebase message's patches are a remote mutation message's patches followed by a local one's. |
| PatchChannel.Publish | packages/sanity/src/structure/panes/document/documentPanel/documentViews/FormView.tsx:77-96 | Mutation and rebase events each publish one message of their own type with the event's document. Other events publish nothing. A mutation event's message is exactly its prepared mutation message. A rebase event's patches are the remote mutation message's patches followed by the local one's. |
| PatchChannel.HasRev | packages/sanity/src/structure/panes/document/documentPanel/documentViews/FormView.tsx:98 | A missing value, a missing revision and the empty revision all read as no revision. Any non-empty revision counts. |
| PatchChannel.RevisionMessages | packages/sanity/src/structure/panes/document/documentPanel/documentViews/FormView.tsx:98-113 | Each message published when a revision appears has the mutation type and no patches, and its snapshot has a revision. |
| PatchChannel.RunRevisionEffect | packages/sanity/src/structure/panes/document/documentPanel/documentViews/FormView.tsx:98-113 | Running the effect render by render, re-run only when `hasRev` changes, publishes at exactly the renders where a revision appears. |
| PatchChannel.SteadyRevisionPublishesOnce | packages/sanity/src/structure/panes/document/documentPanel/documentViews/FormView.tsx:98-113 | A document with a revision from the first render on publishes one message, carrying the first value. |
| PatchChannel.NoRevisionPublishesNothing | packages/sanity/src/structure/panes/document/documentPanel/documentViews/FormView.tsx:98-113 | A document that never has a revision publishes nothing. |
| Search.IsTextSearchCompatible | packages/sanity/src/core/search/search.ts:23-24 | A missing or empty filter is compatible. Otherwise a parse error propagates, and a parsed filter is compatible as the check says. |
| Search.CreateSearch | packages/sanity/src/core/search/search.ts:13-38 | Text search is chosen exactly when legacy search is off and the filter is compatible. A warning is given exactly when legacy search is off and the filter is not compatible. The chosen factory receives the types, the client and the options unchanged. |
| Search.StrategyByCase | packages/sanity/src/core/search/search.ts:23-35 | The legacy flag always selects weighted search. Without a filter there is no warning, and text search is chosen unless the flag is set. A warning only comes with weighted search and names the filter. |
| Search.NoFilterIgnoresParser | packages/sanity/src/core/search/search.ts:23-24 | Without a filter, the parser has no influence on the result. |

## Left out

- The individual plugins and the operation-to-patch translator are opaque wrappers. Each
  plugin is taken to wrap all three intercepted functions and to register some
  subscriptions, which are a parameter. What a plugin does to editing is not modelled.
- The options the plugins receive (key generator, schema types, change and patch streams)
  are not modelled; only `readOnly` and `maxBlocks` influence the composer.
- `maxBlocks` as NaN or another falsy non-number is not modelled. The limit is an
  optional integer.
- Plugins.Subscribe: running a subscription and its teardown are side effects of code
  that is not part of this model. The model records which subscriptions are started and
  which teardowns are called, and in what order.
- DOM and React in the command list are not modelled: the virtualizer, focus, mouse
  and keyboard listeners, throttling, and setting the active-descendant attribute.
- ArrayField.HandleInsert: resolving the initial values of inserted items is an
  observable stream, as is the upload stream. When the item opens relative to those
  streams is not modelled; only whether it opens is.
- ArrayField.HandleInsert: requires that `ensureKey` returns an item with a key, which
  is the promise of that helper; the helper itself is a parameter.
- The remove patch is addressed to the field's full path, not under the member name.
  `ArrayField.RemoveDropsItem` is therefore stated for a field at the top of the document.
- `ApplyToArray` and `ApplyToRef` are reference readings of the few patches these
  handlers build, not the studio's patch applier. Other patches leave the value as it was.
- The keyless move path logs a `console.error` before giving up. Console output is not
  modelled; the model only returns no patches there.
- Plugins.ReinstallWrapsOnce: only the three functions the pristine table saves are
  restored by `destroy`. Any other editor function a plugin overrides (for example the
  one the insert-break plugin replaces) is not saved, so a re-install wraps it again.
  Those functions are not modelled.
- ReferenceInput.QueryUpdates: the search stream's `switchMap` cancellation, the error
  toast and console output are not modelled. Each query contributes its loading update
  followed by its outcome.
- The rest of the reference input is presentation and is not modelled: previews, the
  autocomplete, click-outside handling and focus handling.
- PatchChannel.PrepareMutationEvent: `fromMutationPatches` is a parameter, so the
  contract speaks of its input, not of the form patches it produces.
- The form view's rendering, presence overlay, sync-lock toast and first-focus effect
  are not modelled.
- Search.CreateSearch: the search factories themselves (weighted and text search) are
  not modelled. The result records which one is chosen and what it receives.
