# snabbdom's reconciler, modelled and proved in Dafny

This project models the core of snabbdom, a virtual-DOM library: the
reconciler that `init(modules, domApi)` returns (`patch`, with
`createElm`, `patchVnode`, `updateChildren`, `addVnodes`, `removeVnodes`,
`invokeDestroyHook`, the `rm` countdown of `createRmCb` and the hook
registry), the node builder `h` with its SVG tagging `addNS`, and the
`vnode` record constructor.

The model has three layers:

- **Values.** A vnode is a datatype with an identity (`id`) standing for
  object identity, and its children array is `Kids(ref, items)`, where
  `ref` is the identity of the array and `items` holds `Option<VNode>`
  slots (`updateChildren` nulls them). The host DOM is an abstract tree
  (`HostTree.Host`): every node has an ordered list of child ids, and
  `insertBefore` follows the insert algorithm of section 4.2.3 of the
  WHATWG DOM Standard — a node already in the tree is moved, a null
  reference appends. Hook calls are events appended to a trace; the
  insert queue and the pending `rm` continuations are sequences.
- **Specification functions.** Each operation of the reconciler is a
  total function of the reconciler's `States.State` (host, the `elm` and
  `text` fields written into vnodes, trace, insert queue, pending
  countdowns): `Creation.CreateElm`, `Removal.RemoveVnodes`,
  `Diff.PatchVnode`, `Diff.UpdateChildren` (the while-loop unrolled over a
  `Cursors` value), `Patching.Patch`. The host operations are total, so
  most exceptions the DOM would raise are not reproduced: `Patching.Patch`
  returns `Err(TypeError)` for an old root it cannot read, and the throws
  the model does not reproduce, among them the DOM's own, are listed
  under "Left out".
  The lemmas beside them state the documented behaviour: hook order and
  the vnodes each hook is called on, insert-queue order, the tree
  `createElm` builds, the removal countdown, the key map, selector
  parsing and its inverse, the host effect of each content case of
  `patchVnode`, the order of a parent's children after
  `updateChildren`, and where each new child's node comes from. The functions of `Diff` take a flag `corrected`:
  `false` is the program as written, `true` swaps in the corrected
  reference node of the finding below; everything else uses `false`.
- **Imperative code.** `Patchers.Patcher` is the closure `init` returns,
  as a class whose fields are that state. Its methods follow the source
  loop by loop (the registry loop, the children loops, the four-cursor
  loop over an array copy of `oldCh`, the remove-hook loop) and each one
  ensures that the new state is the one the specification function gives.
  `KeyMaps.CreateKeyToOldIdx`, `Hooks.Register`,
  `Builder.NormalizeChildren` and `Builder.H` are imperative in the same
  way.

## Model

| member | source | states |
|---|---|---|
| `VNodes.Make` | src/package/vnode.ts:53-60 | `vnode()` stores sel, data, children, text and elm as given; `key` is undefined without data and `data.key` otherwise |
| `Hooks.DefinedSpec` | src/package/init.ts:64-72 | `cbs[phase]` holds exactly the modules that define that hook, each once, in registration order |
| `Hooks.Register` | src/package/init.ts:46-72 | the registration loop over the six phases and the modules yields a registry with every phase filled as `DefinedSpec` says |
| `Patchers.Patcher.constructor` | src/package/init.ts:48-72 | `init` keeps the modules, builds the registry, and starts from a host with nothing written and no hook called |
| `Patchers.Patcher.CallModules` | src/package/init.ts:127 | a module-hook loop appends one call per registered module of the phase, in registration order |
| `KeyMaps.CreateKeyToOldIdx` | src/package/init.ts:35-44 | the loop returns the map of the `KeyIndex` specification over the array's current contents |
| `KeyMaps.KeyIndexSpec` | src/package/init.ts:35-44 | only keys occurring in `[beginIdx, endIdx]` are mapped, each to an index in the window that holds a child with that key; every keyed child in the window is mapped, to its own index or a later one (the last duplicate wins) |
| `KeyMaps.KeyMapExact` | src/package/init.ts:35-44 | with unique sibling keys a key maps to an index exactly when that slot is in the window and holds that key |
| `Selectors.IndexOf` | src/package/init.ts:112-113 | `indexOf(c, from)`: the first occurrence at or after `from`, or -1 when there is none |
| `Selectors.ParsePlain` | src/package/init.ts:112-117 | a selector without `#` and `.` is all tag, with no id and no class |
| `Selectors.ParseOrdered` | src/package/init.ts:112-125 | `tag#id.classes` parses into the tag, the id, and the classes with every `.` turned into a space |
| `Selectors.ParseTagId` | src/package/init.ts:112-123 | `tag#id` parses into the tag and the id, without class |
| `Selectors.ParseTagClass` | src/package/init.ts:112-125 | `tag.classes` parses into the tag and the space-separated classes, without id |
| `Selectors.ElementSelectorRoundTrip` | src/package/init.ts:74-78 | the selector `emptyNodeAt` builds from a tag name, id and className parses back into the lowercased tag, the id and the className |
| `Patching.EmptyNodeAt` | src/package/init.ts:74-78 | the vnode for an existing element has empty data, an empty children array, no key, no text and `elm` set to the element |
| `Patching.EmptyNodeAtSelector` | src/package/init.ts:74-78 | its selector parses back into the element's lowercased tag, id and class attributes |
| `Creation.OpenElement` | src/package/init.ts:110-127 | the element for a vnode is the next fresh host node |
| `Creation.OpenElementValid` | src/package/init.ts:112-125 | the new element is childless and carries the parsed tag, the namespace of `data.ns`, and the selector's `id` and `class` attributes |
| `Creation.CreateElmTrace` | src/package/init.ts:90-155 | `createElm` calls `init`, then for an element every module `create` hook, the children's calls in slot order, and its own `create` hook last |
| `Creation.CreateElmQueue` | src/package/init.ts:90-155 | the insert queue gains every element of the new tree with an `insert` hook, children before their parent |
| `Creation.CreateElmFrame` | src/package/init.ts:90-155 | `createElm` changes the host only at nodes it creates, returns the first of them in no list, and writes `elm`/`text` only into vnodes of the new tree |
| `Creation.CreateElmValid` | src/package/init.ts:90-155 | the host stays consistent and the returned node exists |
| `CreatedTree.CreateElmMirrors` | src/package/init.ts:90-155 | the host subtree `createElm` returns mirrors the vnode tree (comments with their text, `''` for undefined text; elements with their non-null children in order, or their text node) and occupies only nodes made by the call |
| `Events.InsertQueueInTree` | src/package/init.ts:149-152 | every queued vnode is an element of the tree with an `insert` hook, and the root is queued last, after all of its descendants |
| `Patchers.Patcher.CreateElm` | src/package/init.ts:90-155 | the method leaves exactly the state `Creation.CreateElm` specifies and returns the same node |
| `Patchers.Patcher.CreateElement` | src/package/init.ts:110-153 | the element branch, with its children loop, leaves exactly the state `Creation.CreateElement` specifies |
| `Patchers.Patcher.OpenElement` | src/package/init.ts:112-127 | the element creation, attribute writes and module `create` loop leave exactly the state `Creation.OpenElement` specifies |
| `Patchers.Patcher.AddVnodes` | src/package/init.ts:157-173 | the loop leaves exactly the state `Diff.AddVnodes` specifies |
| `Adding.AddVnodesBetween` | src/package/init.ts:157-173 | with `before` the head of the nodes `B` that follow the nodes `A` in the parent's list (null when `B` is empty), the list becomes `A`, the host nodes of the non-null slots in slot order, then `B`; only the parent's list and new nodes change, and every added slot gets its `elm` |
| `Adding.CreatedRoot` | src/package/init.ts:90-155 | the node `createElm` returns is new, in no list, and is what `vnode.elm` holds; the host elsewhere and the fields of vnodes outside the tree are as they were |
| `Calls.AddVnodesCalls` | src/package/init.ts:157-173 | `addVnodes` calls hooks only on vnodes of the added slots' trees |
| `Placement.AddOneBetween` | src/package/init.ts:165-171 | one round of `addVnodes` with the head of `b` as reference (null when `b` is empty) puts the new node between `a` and `b` in the parent's list |
| `Countdowns.Tick` | src/package/init.ts:80-87 | one call of `rm` lowers the count by one and detaches exactly when the count was one |
| `Countdowns.DetachesExactlyOnce` | src/package/init.ts:80-87 | over any number of calls, the call numbered `listeners` detaches and no other does |
| `Countdowns.AtMostOneDetach` | src/package/init.ts:80-87 | at most one call detaches, and one does exactly when `1 <= listeners <= calls` |
| `Countdowns.NoDetachBelowOne` | src/package/init.ts:80-87 | a countdown already below one never detaches |
| `Removal.CallRm` | src/package/init.ts:80-87 | the `rm` closure lowers its count and removes the node from its parent only on the call that reaches zero |
| `Events.DestroyEventsOnly` | src/package/init.ts:175-190 | destroying a tree calls only destroy hooks, and only on vnodes of the tree |
| `Events.DestroyBeforeRemove` | src/package/init.ts:200-217 | for one removed child every destroy hook of its subtree runs before any remove hook |
| `Patchers.Patcher.InvokeDestroyHook` | src/package/init.ts:175-190 | the recursive method appends exactly the destroy calls: own hook, module hooks, then each non-null child in order, skipping subtrees without data |
| `Patchers.Patcher.DestroyChildren` | src/package/init.ts:180-187 | the loop over the children appends the destroy calls of each non-null child's subtree, in slot order |
| `Removal.ModuleRemovesSpec` | src/package/init.ts:204-209 | the module remove hooks are called in order, each synchronous one takes one off the count, and none detaches |
| `Removal.RemoveOneSpec` | src/package/init.ts:199-217 | removing a vnode with a selector makes its destroy and remove calls in order; the node is detached exactly when every listener calls `rm` at once, otherwise its countdown waits in `pending` with the calls still due |
| `Removal.RemoveTextSpec` | src/package/init.ts:218-221 | a vnode without selector is removed from the parent directly, with no hook call |
| `Removal.RemoveVnodesTrace` | src/package/init.ts:192-224 | `removeVnodes` makes the calls of the removed children slot by slot |
| `Calls.RemoveVnodesCalls` | src/package/init.ts:192-224 | `removeVnodes` calls hooks only on vnodes of the removed slots' trees |
| `Removal.RemoveVnodesSync` | src/package/init.ts:192-224 | with synchronous remove hooks, removing a range whose nodes sit together in the parent's list takes exactly those nodes out and changes nothing else |
| `Patchers.Patcher.RemoveOne` | src/package/init.ts:199-217 | the remove-hook loop and `rm` calls leave exactly the state `Removal.RemoveOne` specifies |
| `Patchers.Patcher.RemoveVnodes` | src/package/init.ts:192-224 | the loop leaves exactly the state `Removal.RemoveVnodes` specifies |
| `Patchers.Patcher.CallPending` | src/package/init.ts:80-87 | a later call of a held `rm` lowers that countdown and detaches only when it reaches zero |
| `Diff.Choose` | src/package/init.ts:244-315 | outside the four skip branches the cached old start and end and the new start and end are all defined; a keyed move names a non-null slot |
| `Diff.Advance` | src/package/init.ts:244-315 | each round lowers `(oldEndIdx - oldStartIdx) + (newEndIdx - newStartIdx)` by one or two and only narrows the windows, so the loop ends; the only slot of `oldCh` it writes is the key-matched one, which it sets to undefined |
| `DiffFrame.PatchVnodeKeeps` | src/package/init.ts:332-375 | `patchVnode` keeps the host consistent, only appends to the trace, and writes `elm`/`text` only into vnodes of the new tree |
| `DiffFrame.UpdateChildrenKeeps` | src/package/init.ts:226-330 | the same for `updateChildren` and the new children's trees |
| `DiffFrame.PatchVnodeHooks` | src/package/init.ts:332-375 | `prepatch` comes first; on the same-object short cut nothing else is called; otherwise the `update` hooks (modules, then its own) come right after it when `vnode.data` is defined, and `postpatch` comes last |
| `Calls.PatchVnodeCalls` | src/package/init.ts:332-375 | `patchVnode` calls hooks only on vnodes of the old and the new tree |
| `Calls.PatchContentCalls` | src/package/init.ts:347-372 | the content case calls hooks only on vnodes of the old and new children's trees |
| `Calls.UpdateChildrenCalls` | src/package/init.ts:226-330 | `updateChildren` calls hooks only on vnodes of the new children's and old children's trees |
| `Calls.PatchVnodeUpdates` | src/package/init.ts:341-345 | for a `vnode` outside the old children's trees and once in its own tree, no `update` hook runs on it when `vnode.data` is undefined, and between the `update` calls and `postpatch` no call at all is made on it |
| `DiffFrame.PatchVnodeElm` | src/package/init.ts:336 | `vnode.elm` becomes `oldVnode.elm`, also on the same-object short cut |
| `Patchers.Patcher.PatchVnode` | src/package/init.ts:332-375 | the method leaves exactly the state `Diff.PatchVnode` specifies |
| `Patchers.Patcher.PatchContent` | src/package/init.ts:347-372 | the text/children case analysis leaves exactly the state `Diff.PatchContent` specifies |
| `ContentCases.ContentText` | src/package/init.ts:364-372 | a new text that differs from the old one removes the old children and leaves the element with a single text node holding it; a text or comment node takes it as its data; only that node and new nodes change |
| `ContentCases.ContentAdd` | src/package/init.ts:351-356 | new children where the old vnode had none: the old text is cleared and the element's list becomes the host nodes of the new children, in order, each child holding its node |
| `ContentCases.ContentRemove` | src/package/init.ts:357-359 | old children where the new vnode has neither children nor text: they are removed and the element's list is empty, with nothing else changed |
| `ContentCases.ContentClear` | src/package/init.ts:360-363 | neither vnode has children and the new one no text: an old text is cleared and the element is left empty |
| `ChildOrder.PatchContentOrder` | src/package/init.ts:347-372 | on a host that mirrors the old vnode, the content case changes the host only at the old tree's host nodes and at new nodes |
| `ChildOrder.PatchVnodeOrder` | src/package/init.ts:332-375 | on a host that mirrors the old vnode, `patchVnode` changes the host only at the old tree's host nodes and at new nodes |
| `Windows.CurAdvance` | src/package/init.ts:244-315 | one round keeps the loop's bookkeeping: windows in bounds, the array copy equal to `oldCh` except for nulled slots, the cached start and end at the window's ends, a sound key map, and a keyed pair in both windows or in neither |
| `Moves.MoveRight` | src/package/init.ts:269-278 | moving the old start's node before the node after the old end takes it past the window: `X a Y Z` becomes `X Y a Z` |
| `Moves.MoveLeft` | src/package/init.ts:279-286 | moving the old end's node before the old start's takes it back past the window: `X Y a Z` becomes `X a Y Z` |
| `Tracking.TrackedStart` | src/package/init.ts:230-243 | at the start of the loop the parent's list is the old children's nodes, the whole of both arrays is the window, and nothing has changed |
| `ChildOrder.StepOrder` | src/package/init.ts:244-315 | every round keeps the parent's list equal to the nodes of the new children handled from the start, then the live old window, then the new children handled from the end, and gives each handled new child its node, and a keyed one matched by `sameVnode` its old partner's (matches without keys: `Reuse.RoundReuse`) |
| `ChildOrder.FinishOrder` | src/package/init.ts:318-329 | after the loop, adding the new children left or removing the old ones left makes the parent's list the host nodes of the new children in order |
| `ChildOrder.LoopOrder` | src/package/init.ts:244-329 | the loop from any tracked state, with the clean-up, ends as `FinishOrder` says |
| `ChildOrder.UpdateChildrenOrder` | src/package/init.ts:226-330 | on an element that mirrors the old children, the list ends as the host nodes of the new children in order; every new child holds its node, and a keyed new child matched by `sameVnode` its old partner's (for children with or without keys see `Reuse.UpdateChildrenReuse`); only the old children's host nodes, the element and new nodes change |
| `Reuse.RoundReuse` | src/package/init.ts:257-310 | in a start/start, end/end, start-to-end or end-to-start round, and in a keyed move, the new child handled is `sameVnode` with the old child it is paired with and ends holding that old child's node (`vnode.elm = oldVnode.elm`, line 336), with or without keys; only that new child's tree has fields written |
| `Reuse.RoundSourced` | src/package/init.ts:244-315 | every round keeps each handled new child's node either created during the call or the node of an old child that `sameVnode` pairs it with |
| `Reuse.FinishSourced` | src/package/init.ts:318-329 | the clean-up keeps the handled new children's nodes and gives each new child added by `addVnodes` a node created during the call |
| `Reuse.LoopSourced` | src/package/init.ts:244-329 | from any tracked state, the loop and the clean-up leave every new child with a node as `RoundSourced` describes |
| `Reuse.UpdateChildrenReuse` | src/package/init.ts:226-330 | every new child ends holding either a node created during the call or the node of an old child that `sameVnode` pairs it with, keyed or not; no two new children hold the same node, so no old node is given to two of them |
| `Patchers.Patcher.UpdateChildren` | src/package/init.ts:226-330 | the four-cursor loop over an array copy of `oldCh`, then the clean-up, leaves exactly the state `Diff.UpdateChildren` specifies |
| `Patchers.Patcher.Cleanup` | src/package/init.ts:318-329 | after the loop, the new children left are added before the node of `newCh[newEndIdx + 1]` (null when that slot is null), or else the old children left are removed, as `Diff.Finish` specifies for the program as written |
| `Patchers.Patcher.Round` | src/package/init.ts:244-315 | one round changes the state as `Diff.UpdateStep` says and moves the cursors, cached vnodes, array and key map as `Diff.Advance` says |
| `Patchers.Patcher.Matched` | src/package/init.ts:257-268 | with all four window ends defined: a start pair or an end pair of same vnodes is patched in place, and both its cursors move, as `Diff.UpdateStep` and `Diff.Advance` say |
| `Patchers.Patcher.Crossed` | src/package/init.ts:269-286 | the old start matching the new end is patched and moved after the old end; the old end matching the new start is patched and moved before the old start |
| `Patchers.Patcher.Keyed` | src/package/init.ts:287-315 | when no pairing of window ends matches, the key map decides the round and only the new start cursor moves |
| `Patchers.Patcher.KeyedRound` | src/package/init.ts:287-315 | the key map is built on first use; a miss or a selector mismatch creates the new child before the old start; a match is patched, its slot set to undefined and its node moved before the old start |
| `Placement.BeforeSkipsNull` | src/package/init.ts:321 | with a null slot right after the window and then a placed child, the reference as written is null while the first placed node is that child's |
| `Placement.BeforeAsWrittenAppends` | src/package/init.ts:321-324 | with that reference the new node is appended after the nodes of the later children; with the first placed node it goes right before them |
| `Patching.OldRoot` | src/package/init.ts:383-386 | a vnode with a selector is used as is; anything else must be a host element and becomes its `emptyNodeAt` vnode |
| `Patching.OldRootFresh` | src/package/init.ts:74-78 | the objects `emptyNodeAt` makes are new (`Patching.Fresh`): its vnode's `elm` reads as the element it was made for, and it shares no vnode and no children array with the new tree |
| `Patching.ReplaceInPlace` | src/package/init.ts:391-404 | replacing the root puts the new tree's node where the old root's node was in its parent's list, removes the old one, and queues the new tree's `insert` vnodes |
| `Patching.ReplaceDetached` | src/package/init.ts:399-404 | an old root without parent is left alone: only the new tree's nodes change |
| `Patching.PatchHooks` | src/package/init.ts:377-413 | the module `pre` hooks run first; the queued `insert` hooks, in queue order, and then the module `post` hooks run last |
| `Patching.InsertCalls` | src/package/init.ts:407-410 | one `insert` call per queued vnode, in queue order |
| `Patchers.Patcher.CallGlobals` | src/package/init.ts:381 | the `pre` (and `post`) loop calls each registered module hook once, in registration order |
| `Patchers.Patcher.CallInserted` | src/package/init.ts:407-410 | the loop appends the queued vnodes' `insert` calls in queue order |
| `Patchers.Patcher.ReplaceRoot` | src/package/init.ts:391-404 | the `else` branch of `patch` fails exactly when `Patching.Replace` does and otherwise leaves its state |
| `Patchers.Patcher.Patch` | src/package/init.ts:377-413 | for new objects made by `emptyNodeAt` (`Patching.Fresh`), `patch` fails exactly when `Patching.Patch` does; otherwise it returns `vnode` itself and leaves the state `Patching.Patch` specifies |
| `Builder.Dispatch` | src/package/h.ts:40-64 | the dispatch never sets both text and children |
| `Builder.DispatchThree` | src/package/h.ts:40-53 | with `c` given: data is `b` unless `b` is null, and is a primitive exactly when `b` is; an array `c` becomes the children, a primitive the text, an object with a `sel` the only child |
| `Builder.DispatchTwo` | src/package/h.ts:54-64 | with only `b`: an array becomes the children, a primitive the text, an object with a `sel` the only child, any other object the data, never a primitive; null or undefined leaves empty data and nothing else |
| `Builder.NormalizeChildren` | src/package/h.ts:65-70 | the loop replaces each primitive entry in place by a text vnode holding it and keeps the other entries and the length |
| `Builder.TextVnode` | src/package/h.ts:68 | the replacement has no sel, data, children, elm or key, and the primitive as text |
| `Builder.KidsAfterSlots` | src/package/h.ts:65-70 | a children slot is the entry's vnode, its text vnode, or empty for null and undefined |
| `Builder.SvgPrefix` | src/package/h.ts:71-76 | `svg` is tagged, and `svg` followed by a character is tagged exactly when that character is `.` or `#` (so `svgx` is not) |
| `Builder.TagSpec` | src/package/h.ts:18-28 | `addNS` sets the SVG namespace on every node it reaches and changes nothing else; it does not go below a `foreignObject`, which is itself tagged |
| `Builder.TagFails` | src/package/h.ts:18-28 | `addNS` throws exactly when a children array it reaches holds a null entry |
| `Builder.BuildSpec` | src/package/h.ts:71-78 | the result has the selector, no elm, `key` equal to `data.key` and the text; under an `svg` selector it fails exactly when `addNS` throws (undefined or primitive data, or a null child reached) and otherwise every reached node is tagged and only `ns` changes; any other selector gives the vnode unchanged |
| `Builder.H` | src/package/h.ts:34-79 | `h` returns what the dispatch, the normalised array and `BuildSpec` give, overwrites the caller's array entry by entry, and returns a node with `key` equal to `data.key` and not both text and children; with an `svg` selector and a primitive `b` in the three-argument form it fails |

## Left out

- The DOM adapter is replaced by the abstract host tree. Its operations are total: where the DOM would throw (an unknown parent, a reference that is not a child, `removeChild` of a non-child), the host is left as it is. No hierarchy checks (a node inserted into its own descendant) are made. `createElement` and `createElementNS` throw an InvalidCharacterError for a tag that is not a valid element name, and the model creates the element anyway (next line).
- `HostTree.CreateElement`: makes an element for any tag. This includes the tags of selectors that `createElm` passes on unchanged: the empty tag of selector `""`, and `".a"` and `"#b"` for selectors that start with `.` or `#`, because the source splits only at a `#` or `.` after the first character (src/package/init.ts:112-117). The source throws there, and `patch` is abandoned.
- Module internals and all hook bodies are foreign code. Their calls are trace events. For remove hooks, whether they call `rm` at once or keep it for later is a field of the module or of the vnode's hooks (`removeSync`); a kept `rm` is a countdown in `pending`.
- The node-level `init` hook may rewrite `vnode.data` (src/package/init.ts:95-99); the model records the call and keeps the data.
- Asynchronous removal beyond the counter: a held `rm` is called through `Patcher.CallPending`, at whatever time the caller chooses.
- Keys are strings. A number key and its string form collide in the source's map, and a vnode without key probes `"undefined"`; the model treats a missing key as a miss.
- `toLowerCase` is modelled on ASCII letters only.
- Children arrays holding strings (allowed by the `VNode` type, skipped by `invokeDestroyHook`) are not modelled: a slot is a vnode or empty.
- Numbers in text are integers; floating-point text is not modelled.
- `Diff.PatchVnode`: when `oldVnode.elm` is undefined the source sets `vnode.elm` to undefined and goes on: unless the two vnodes are the same object it calls the `update` hooks (when `vnode.data` is defined), then runs the content case, which throws at the first DOM call on the undefined element, and calls `postpatch` when no such call comes (for instance two empty children arrays, or equal texts). The model records `prepatch` only and drops those `update` and `postpatch` calls and any content change.
- `Creation.CreateElm`: an element vnode whose `data` is undefined (as `h('div', undefined, [...])` builds) makes the source throw a TypeError on `vnode.data!.hook` after the element, its attributes, the module `create` calls and its children are made; the model builds the same element and goes on as for data without hooks, so the throw and the abandoned `patch` are not modelled.
- `Creation.CreateElement`: the same throw of the element branch on undefined `data` is not modelled; it completes as for data without hooks.
- `Patchers.Patcher.CreateElement`: follows `Creation.CreateElement` and so does not throw on undefined `data` either.
- `Diff.Choose`: the key map is a plain object, so a key naming an inherited `Object.prototype` member (`toString`, `constructor`, `valueOf`, …) that no old child in the window has, and the key `"__proto__"` always (`map[key] = i` never stores it), read back a defined value that is not an index; the source then throws on `elmToMove.sel` (src/package/init.ts:294-301), while the model's `Diff.Lookup` reads them as a miss and creates the new child. The lemmas about `updateChildren` describe the model for such keys.
- `Patchers.Patcher.KeyedRound`: shares `Diff.Lookup`, so it creates the new child for those keys where the source throws.
- `Diff.NextSiblingOf`: in the round that moves the old start after the old end, an old end whose `elm` is undefined makes `api.nextSibling` throw (src/package/init.ts:274); the model reads it as no sibling, so the old start's node is appended. Under `Tracking.Ready` every old child has a node, so the order lemmas do not meet this case.
- `Diff.Choose`: a key found in the map whose slot was already set to undefined makes the source throw on `elmToMove.sel`; the model creates the new child instead.
- `Patching.OldRoot`: a text vnode or other non-element passed as the old root makes `emptyNodeAt` throw; the model returns `Err(TypeError)`.
- `Builder.Tag`: `addNS` writes into the caller's data objects in place; the model builds tagged copies, so sharing of a data object between vnodes and the partial writes made before a throw are not modelled.
- `Builder.AsData`: an array or primitive `b` used as data contributes none of the fields the core reads. A primitive `b` in the three-argument form is flagged (`Parts.primData`), and under an `svg` selector `Builder.Build` fails on it as `addNS` does (src/package/h.ts:19, 41-42); under any other selector the source keeps the string or number as `data`, which the model does not represent.
- `Patchers.Patcher.Patch`: after a failure the state is not specified (the source has thrown half way).
- `Patchers.Patcher.UpdateChildren`: the slots are nulled in an array copy of `oldCh`, not in the caller's array.
- `ChildOrder.UpdateChildrenOrder`: proved under `Tracking.Ready` only: the host mirrors the old tree and its sibling subtrees occupy disjoint host nodes, sibling keys are unique in both trees, the two trees share no vnode object and the new one repeats none, and every remove hook calls `rm` at once (`AllModulesSync`, `RemovesNow`). With a deferred `rm` the old node stays in the list until it is called, which the model leaves to `Patcher.CallPending`.
- `ChildOrder.UpdateChildrenOrder`: for the program as written (`corrected` false) it also needs every children array of the new tree to be free of null slots (`Tracking.Dense`); the finding below is an input without it where the order is wrong.
- `ChildOrder.PatchVnodeOrder`: states where `patchVnode` may change the host and, through `UpdateChildrenOrder` and `ContentCases`, each children list it rebuilds; a single theorem that the whole patched host subtree mirrors the new vnode tree is proved for `createElm` only.
- `DiffFrame.PatchVnodeHooks`: does not by itself exclude other `update` calls on `vnode`; `Calls.PatchVnodeUpdates` does, for a `vnode` that is not inside the old children's trees and occurs once in its own tree.
- Thunks (`fn`/`args`), the open field bag of `VNodeData`, and the type-level helpers of init.ts are not part of this model. `htmldomapi.ts`, `is.ts` and `modules/` are not part of this model.

## Findings

| source | as written | input that shows it | evidently intended | confidence | as-written member | corrected member |
|---|---|---|---|---|---|---|
| src/package/init.ts:321 | `before = newCh[newEndIdx + 1] == null ? null : newCh[newEndIdx + 1].elm` | old keyed children `[c, a]`, new `[a, b, null, c]`: the loop patches `c` to the end, skips the null, matches `a`; then `b` is added with reference null and appended, so the parent shows `a, c, b` | `b` is inserted before the first node after the window, `c`, giving `a, b, c` | not executed | `Diff.BeforeAsWritten` (`Placement.BeforeAsWrittenAppends`; `Diff.Finish` with `corrected` false, for which `ChildOrder.UpdateChildrenOrder` needs `Tracking.Dense`) | `Diff.Before` (`Placement.BeforeSkipsNull`; `Diff.Finish` with `corrected` true, for which `ChildOrder.UpdateChildrenOrder` holds without `Tracking.Dense`) |
