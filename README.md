# we-edit bookmark tree and domain modules, in Dafny

This project models the in-memory core of the we-edit bookmark application and
proves what that core promises.

- **The bookmark tree.** A nested list of folders and bookmarks, each with `id`, `name`, `position` and `parentId`.
  - Two near-identical tree stores change it: the zustand store `store/bookmark-tree.ts` and the hook `useBookmarkTree.ts`. Their operations are move, add, update, remove and the drag-state setters.
  - The helper walks are modelled as loops proved equal to specification functions: depth-first lookup, removal of the first match, and renumbering.
  - The stores are classes whose methods state the new state in terms of those functions. Lemmas then prove what the functions mean:
    - a move keeps every id exactly once;
    - a completed move leaves every `position` equal to its index and every `parentId` naming its folder;
    - a move onto the source's own subtree aborts;
    - "inside" lands as the folder's last child, and "before" and "after" land just before or just after the target, at the top level and inside a folder;
    - an aborted move of a nested item still shows the detach in the old state, because the nested `children` array is shared.
- **Move validation and drag handling.**
  - The container's circular and depth checks (`MAX_DEPTH` 5), proved to mean "the source is not on the destination's way up" and "the destination has at most four items on its way up".
  - The container's drag and "new folder" handlers.
  - The drag-and-drop hook, modelled as transitions of the drag state.
  - The high-level operations hook.
- **Codecs and transform.**
  - The two converters to and from Chrome bookmark records, with round-trip lemmas in both directions.
  - The conversion of database rows into a tree. It keeps every row exactly once, and it sorts every level stably by position as a permutation.
- **The role domain.**
  - Error codes, error constructors and guards.
  - The role model's `createRole`, `hasPermission`, `canManage`, `addPermission` and `removePermission`.
  - The factory's validation, with its duplicate count.
  - The `Map`-backed repository.
- **The event store.** Event lists, read-event lists, snapshots, the version counter, and error normalisation into a `Result`.
- **The group feature.** The form helpers and the mock group API: list-based create, read, update and delete of groups and their members.
- **The component-library helpers.** `composeComponentName`, `getResponsiveValue` and `isNonNullable`.

Fresh identifiers are parameters of the operations that use them: `crypto.randomUUID`, `ulid`, the role id generator, and `m` followed by `Date.now()`.

`JSON.parse` is a parameter of `parseTags`.

Thrown values are a datatype, so `try`/`catch` becomes a case analysis.

Where the role model's test suite and its code disagree, the model follows the code. The test at `core/role/models/role.test.ts:139-153` expects a system administrator to manage a member. That administrator's only permission is viewing bookmarks, and `canManage` (`core/role/models/role.ts:93-99`) requires a `manage` permission. `RoleModel.AdministratorWithoutManagePermission` proves that the code answers false for this pair.

The mock group API names a new group `g` followed by one more than the number of groups (`features/group/api/mockApi.ts:92`). After a delete, that name can already be in use. `GroupApi.CreateAfterDeleteReusesId` shows two groups ending up with the same id. The model keeps the code's naming.

## Model

| member | source | states |
|---|---|---|
| TreeTypes.VariantGuards | we-edit/src/features/bookmarks/types/tree.ts:117-123 | every item passes exactly one of isFolder and isBookmark, and each guard holds exactly for its variant |
| TreeTypes.FindById | we-edit/src/features/bookmarks/types/tree.ts:134 | `items.find` by id returns an element of the list with that id, and none exactly when no element has it |
| TreeTypes.CalculateTreeDepth | we-edit/src/features/bookmarks/types/tree.ts:128-140 | the loop's result is the length of the item's parentId chain through the flat list, counting a hop before its lookup |
| TreeTypes.TopLevelDepth | we-edit/src/features/bookmarks/types/tree.ts:129-132 | an item with a falsy parentId has depth 0 |
| TreeTypes.DanglingParentDepth | we-edit/src/features/bookmarks/types/tree.ts:132-135 | a parentId that names no item of the list still gives depth 1 |
| TreeTypes.DepthOfChild | we-edit/src/features/bookmarks/types/tree.ts:132-137 | an item whose parent is in the list is one deeper than that parent |
| TreeStore.ApplyDragUpdate | we-edit/src/store/bookmark-tree.ts:176-182 | every supplied key of a partial drag state overwrites, and every other key keeps its value |
| TreeStore.Merge | we-edit/src/store/bookmark-tree.ts:154-163 | a merge keeps the variant and the id, overwrites each supplied field of that variant and keeps the rest |
| TreeStore.IndexOfId | we-edit/src/store/bookmark-tree.ts:205 | `findIndex` gives the first index holding the id, or -1 exactly when no item has it |
| TreeStore.RenumberFrom | we-edit/src/store/bookmark-tree.ts:222-233 | renumbering keeps the length of the level |
| TreeStore.Placed | we-edit/src/store/bookmark-tree.ts:225-231 | a renumbered item keeps its id and variant and takes the index and the enclosing folder's id |
| TreeStore.ClampStart | we-edit/src/store/bookmark-tree.ts:113-115 | the splice start is clamped to the list: negative starts count from the end, large starts become the length |
| TreeStore.SpliceInsert | we-edit/src/store/bookmark-tree.ts:113-115 | `splice(start, 0, x)` puts x at the clamped start, with the items before and after it unchanged |
| TreeStore.GetInsertIndex | we-edit/src/store/bookmark-tree.ts:235-240 | "after" gives one past the default index, any other position the default |
| TreeStore.FindItemRecursive | we-edit/src/store/bookmark-tree.ts:188-200 | the search loop returns what the depth-first lookup Find returns |
| TreeStore.FindIndex | we-edit/src/store/bookmark-tree.ts:205 | the findIndex loop returns IndexOfId |
| TreeStore.RemoveItemFromParent | we-edit/src/store/bookmark-tree.ts:202-220 | the removal returns the tree without the first match and whether a match was removed |
| TreeStore.RemoveFromFolders | we-edit/src/store/bookmark-tree.ts:211-217 | the loop over a level's folders stops at the first folder whose subtree held the id |
| TreeStore.UpdatePositions | we-edit/src/store/bookmark-tree.ts:222-233 | the forEach loop returns the renumbered tree |
| TreeStore.RenumberFromAt | we-edit/src/store/bookmark-tree.ts:225-228 | item i of a renumbered level is item i placed at index i |
| TreeStore.PlaceSource | we-edit/src/store/bookmark-tree.ts:96-117 | placing the detached source by target id returns the Placement specification, None where the source returns the old state |
| TreeStore.PlaceInParent | we-edit/src/store/bookmark-tree.ts:104-117 | a target with a parent gets the source spliced in beside it within the parent's children |
| TreeStore.PlacementInParent | we-edit/src/store/bookmark-tree.ts:105-116 | placement beside a nested target, spelled out: the parent is looked up, and a missing or non-folder parent aborts |
| TreeStore.MoveTree | we-edit/src/store/bookmark-tree.ts:83-127 | the body of moveItem returns the MoveSpec outcome: source missing, aborted with the visible old state, or moved |
| TreeStore.Relocate | we-edit/src/store/bookmark-tree.ts:91-118 | after the detach, a falsy target goes to the top level and any other target goes through PlaceSource |
| TreeStore.BookmarkTreeStore.constructor | we-edit/src/store/bookmark-tree.ts:75-78 | the store starts with no items and the initial drag state |
| TreeStore.BookmarkTreeStore.SetTree | we-edit/src/store/bookmark-tree.ts:81 | setTree replaces the items and keeps the drag state |
| TreeStore.BookmarkTreeStore.MoveItem | we-edit/src/store/bookmark-tree.ts:83-127 | a missing source changes nothing, an aborted move leaves the visible old state, and a move installs the new tree and resets the drag state |
| TreeStore.BookmarkTreeStore.AddItem | we-edit/src/store/bookmark-tree.ts:129-146 | the items become AddSpec of the old items, and the drag state is kept |
| TreeStore.BookmarkTreeStore.UpdateItem | we-edit/src/store/bookmark-tree.ts:148-166 | the items become UpdateSpec: a merge only when the tag matches or is absent |
| TreeStore.BookmarkTreeStore.RemoveItem | we-edit/src/store/bookmark-tree.ts:168-173 | the items lose the first match of the id, with its subtree |
| TreeStore.BookmarkTreeStore.SetDragState | we-edit/src/store/bookmark-tree.ts:176-182 | the drag state takes the partial update and the items are kept |
| TreeStore.BookmarkTreeStore.ResetDragState | we-edit/src/store/bookmark-tree.ts:184 | the drag state returns to all null and not dragging |
| TreeLemmas.FindIsFirstInPreorder | we-edit/src/store/bookmark-tree.ts:188-200 | the lookup returns the first item with the id in depth-first pre-order |
| TreeLemmas.FindSpec | we-edit/src/store/bookmark-tree.ts:188-200 | the lookup finds an item exactly when the id occurs in the tree, and the item carries that id |
| TreeLemmas.UniqueItem | we-edit/src/features/bookmarks/hooks/useBookmarkTree.ts:161-171 | with unique ids, two items of the tree with the same id are the same item, so the found item is the unique one |
| TreeLemmas.RemoveFirstSpec | we-edit/src/store/bookmark-tree.ts:202-220 | removal takes out exactly the removed item's ids when the id occurs, and changes nothing otherwise |
| TreeLemmas.RemovedIsFound | we-edit/src/store/bookmark-tree.ts:205-213 | with unique ids, the removed item is the one the lookup finds |
| TreeLemmas.ReplaceFirstIds | we-edit/src/store/bookmark-tree.ts:151-163 | replacing the found item trades exactly its ids for the new item's ids |
| TreeLemmas.FindAfterReplace | we-edit/src/store/bookmark-tree.ts:151-156 | after an in-place update with the same id, the lookup returns the updated item |
| TreeLemmas.ReplaceKeepsIds | we-edit/src/store/bookmark-tree.ts:148-166 | an update that keeps an item's ids keeps the tree's ids |
| TreeLemmas.RenumberPositioned | we-edit/src/store/bookmark-tree.ts:222-233 | after renumbering, every position is its index and every parentId is its folder's id, at every level |
| TreeLemmas.RenumberSameShape | we-edit/src/store/bookmark-tree.ts:222-233 | renumbering changes nothing but position and parentId |
| TreeLemmas.RenumberIdempotent | we-edit/src/store/bookmark-tree.ts:222-233 | renumbering a numbered tree changes nothing |
| TreeLemmas.SameShapeIds | we-edit/src/store/bookmark-tree.ts:222-233 | trees that differ only in position and parentId have the same ids in the same order |
| TreeLemmas.FindSameShape | we-edit/src/store/bookmark-tree.ts:222-233 | such trees find items of the same shape under every id |
| TreeLemmas.PlacementIds | we-edit/src/store/bookmark-tree.ts:96-117 | whatever a placement produces, the detached tree gains exactly the source's ids |
| TreeLemmas.PlacementInside | we-edit/src/store/bookmark-tree.ts:100-103 | "inside" a folder target appends the source to that folder's children with the folder's id as parentId |
| TreeLemmas.PlacementBesideTop | we-edit/src/store/bookmark-tree.ts:104-116 | "before" or "after" a top-level target splices the source in at the target's index or one past it |
| TreeLemmas.AppendedToFolderIds | we-edit/src/store/bookmark-tree.ts:102 | appending a child to the found folder adds exactly the child's ids |
| TreeLemmas.SplicedIntoFolderIds | we-edit/src/store/bookmark-tree.ts:115 | splicing a child into the found folder adds exactly the child's ids |
| TreeLemmas.MoveConservesIds | we-edit/src/store/bookmark-tree.ts:83-127 | with unique ids, a completed move keeps every id of the tree exactly as often as before |
| TreeLemmas.MovePositioned | we-edit/src/store/bookmark-tree.ts:120-121 | a completed move leaves the whole tree numbered |
| TreeLemmas.MoveMissingSource | we-edit/src/store/bookmark-tree.ts:86-87 | moveItem leaves the state alone exactly when the source id is not in the tree |
| TreeLemmas.MoveToTopLevel | we-edit/src/store/bookmark-tree.ts:91-95 | a falsy target always completes, with the source at top-level index 0, or 1 for "after" (clamped), and parentId null |
| TreeLemmas.MoveIntoOwnSubtreeAborts | we-edit/src/store/bookmark-tree.ts:89-98 | with unique ids, a move onto the source or anything below it never completes |
| TreeLemmas.AbortedNestedMoveLosesSource | we-edit/src/store/bookmark-tree.ts:89-98 | an aborted move of a nested item still removes it from the tree the old state shows |
| TreeLemmas.RemovalDropsSource | we-edit/src/store/bookmark-tree.ts:202-220 | with unique ids, removing an item takes its id and all ids below it out of the tree |
| TreeLemmas.MoveInsideAppends | we-edit/src/store/bookmark-tree.ts:100-103 | "inside" on a folder target appends the source as that folder's last child |
| TreeLemmas.MoveInsideOutcome | we-edit/src/store/bookmark-tree.ts:100-121 | the outcome of "inside" on a folder, spelled out through renumbering |
| TreeLemmas.FoundAfterRenumber | we-edit/src/store/bookmark-tree.ts:222-233 | renumbering keeps a found folder a folder with the same child ids |
| TreeLemmas.MoveBesideTopLevel | we-edit/src/store/bookmark-tree.ts:104-116 | "before"/"after" a top-level target puts the source just before or just after it in the result |
| TreeLemmas.MoveBesideOutcome | we-edit/src/store/bookmark-tree.ts:104-121 | the outcome of a move beside a top-level target, spelled out through renumbering |
| TreeLemmas.RenumberedBeside | we-edit/src/store/bookmark-tree.ts:104-121 | splicing beside index k of the top level, then renumbering, gives one more item, with the new item and the old item k in the order "before" or "after" asks for |
| TreeLemmas.MoveBesideNested | we-edit/src/store/bookmark-tree.ts:104-116 | "before"/"after" a target inside a folder always completes, and that folder's children then hold the source just before or just after the target at the target's old index |
| TreeLemmas.MoveBesideNestedOutcome | we-edit/src/store/bookmark-tree.ts:104-121 | the outcome of a move beside a nested target, spelled out: the parent folder's children get the source spliced in at the target's index or one past it, then the tree is renumbered |
| TreeLemmas.FolderChildrenBeside | we-edit/src/store/bookmark-tree.ts:104-116 | splicing beside child k of a found folder, then renumbering, leaves that folder with one more child, holding the new item and the old child k in the order "before" or "after" asks for |
| TreeLemmas.InsideOntoNonFolderIsAfter | we-edit/src/store/bookmark-tree.ts:100-116 | "inside" onto a target that is not a folder skips the folder branch and ends exactly like a drop "after" that target, so the beside lemmas cover it too |
| TreeLemmas.SplicedBeside | we-edit/src/store/bookmark-tree.ts:113-115 | splicing at the target index or one past it puts the source and the target next to each other in drop order |
| TreeLemmas.AddItemIds | we-edit/src/store/bookmark-tree.ts:129-146 | the tree gains exactly the item's ids when its parentId is null or names a folder, and nothing otherwise |
| TreeLemmas.AddIntoFolder | we-edit/src/store/bookmark-tree.ts:137-143 | addItem under a folder makes the item that folder's last child |
| TreeLemmas.UpdateItemSpec | we-edit/src/store/bookmark-tree.ts:148-166 | an accepted update replaces the item by the merged item, a refused one changes nothing, and ids are never affected |
| TreeLemmas.UpdateAcceptedSpec | we-edit/src/store/bookmark-tree.ts:154-163 | an accepted update replaces the found item by the merged item, keeps the tree's ids, and the id then finds the merged item |
| Container.CircularIffAncestor | we-edit/src/app/_components/bookmark-tree/tree-container.tsx:119-124 | isCircular holds exactly when the item is the target or lies on the target's way up |
| Container.DepthIsAncestryLength | we-edit/src/app/_components/bookmark-tree/tree-container.tsx:127-131 | getDepth is the number of items on the way up, the item itself included |
| Container.AncestryWalk | we-edit/src/app/_components/bookmark-tree/tree-container.tsx:119-131 | the way up starts at the id exactly when it is in the tree, and each entry's item links to the next |
| Container.ValidateMove | we-edit/src/app/_components/bookmark-tree/tree-container.tsx:115-145 | no destination is always allowed; a circular drop is refused as circular; otherwise the drop is too deep exactly when the destination depth plus one exceeds MAX_DEPTH |
| Container.ValidateMoveMeaning | we-edit/src/app/_components/bookmark-tree/tree-container.tsx:133-142 | a drop is allowed exactly when the source is not on the destination's way up and that way has at most MAX_DEPTH - 1 items |
| Container.DropOntoSelfIsCircular | we-edit/src/app/_components/bookmark-tree/tree-container.tsx:119-122 | a drop onto the dragged item itself is refused as circular |
| Container.TopLevelDepth | we-edit/src/app/_components/bookmark-tree/tree-container.tsx:127-131 | in a numbered tree with unique ids every top-level item is at depth 1 |
| Container.ChildDepth | we-edit/src/app/_components/bookmark-tree/tree-container.tsx:127-131 | in a numbered tree with unique ids a child is one level below its folder |
| Container.FoundItself | we-edit/src/app/_components/bookmark-tree/tree-container.tsx:27-36 | with unique ids, looking up an item's own id finds that item |
| Container.TreeContainer.constructor | we-edit/src/app/_components/bookmark-tree/tree-container.tsx:73-75 | the container starts with no active id, over the given store |
| Container.TreeContainer.HandleDragStart | we-edit/src/app/_components/bookmark-tree/tree-container.tsx:147-149 | a drag start records the active id |
| Container.TreeContainer.HandleDragEnd | we-edit/src/app/_components/bookmark-tree/tree-container.tsx:151-163 | a move happens exactly when the drop is onto another item and validateMove allows it; a refused drop keeps the active id and anything else clears it |
| Container.TreeContainer.HandleCreateFolder | we-edit/src/app/_components/bookmark-tree/tree-container.tsx:165-175 | a new expanded, empty top-level folder is appended at position equal to the old length |
| TreeHook.Assign | we-edit/src/features/bookmarks/hooks/useBookmarkTree.ts:136 | the unchecked merge agrees with the store's merge on every accepted update, and takes the update's tag otherwise |
| TreeHook.HookUpdateAgreesWithStore | we-edit/src/features/bookmarks/hooks/useBookmarkTree.ts:130-138 | the hook and the store agree on every update the store accepts, and both ignore an unknown id |
| TreeHook.HookUpdateLands | we-edit/src/features/bookmarks/hooks/useBookmarkTree.ts:130-138 | after the hook's update the id finds the assigned item, which carries the update's tag when it has one |
| TreeHook.HookAppliesRefusedUpdate | we-edit/src/features/bookmarks/hooks/useBookmarkTree.ts:136 | an update with a mismatched tag, which the store refuses, changes the hook's tree |
| TreeHook.BookmarkTreeHook.constructor | we-edit/src/features/bookmarks/hooks/useBookmarkTree.ts:53-58 | the hook starts with no items and the initial drag state |
| TreeHook.BookmarkTreeHook.SetTree | we-edit/src/features/bookmarks/hooks/useBookmarkTree.ts:61 | setTree replaces the items and keeps the drag state |
| TreeHook.BookmarkTreeHook.MoveItem | we-edit/src/features/bookmarks/hooks/useBookmarkTree.ts:63-108 | the same outcomes as the store's moveItem |
| TreeHook.BookmarkTreeHook.AddItem | we-edit/src/features/bookmarks/hooks/useBookmarkTree.ts:110-128 | the items become AddSpec of the old items |
| TreeHook.BookmarkTreeHook.UpdateItem | we-edit/src/features/bookmarks/hooks/useBookmarkTree.ts:130-138 | the found item is replaced by the unchecked merge, and an unknown id changes nothing |
| TreeHook.BookmarkTreeHook.RemoveItem | we-edit/src/features/bookmarks/hooks/useBookmarkTree.ts:140-145 | the items lose the first match of the id |
| TreeHook.BookmarkTreeHook.SetDragState | we-edit/src/features/bookmarks/hooks/useBookmarkTree.ts:148-155 | the drag state takes the partial update and the items are kept |
| TreeHook.BookmarkTreeHook.ResetDragState | we-edit/src/features/bookmarks/hooks/useBookmarkTree.ts:157 | the drag state returns to the initial one |
| DragDrop.DropPositionFor | we-edit/src/features/bookmarks/hooks/useTreeDragDrop.ts:68-73 | a folder target gives "inside", any other target "after" |
| DragDrop.StartUpdate | we-edit/src/features/bookmarks/hooks/useTreeDragDrop.ts:42-47 | the update a drag start applies turns dragging on |
| DragDrop.DropWithoutTargetData | we-edit/src/features/bookmarks/hooks/useTreeDragDrop.ts:51-64 | a drop with no target or no target data only stops the drag and never moves |
| DragDrop.DropEndsDrag | we-edit/src/features/bookmarks/hooks/useTreeDragDrop.ts:50-94 | every drop ends with isDragging false |
| DragDrop.DropIsOneMove | we-edit/src/features/bookmarks/hooks/useTreeDragDrop.ts:66-93 | a drop onto a target with data, with no collapsed folder to expand, leaves the tree of exactly one moveItem: inside for a folder and after anything else |
| DragDrop.DropExpandsCollapsedFolder | we-edit/src/features/bookmarks/hooks/useTreeDragDrop.ts:75-88 | a collapsed top-level folder target that is still in the tree after the move ends up expanded |
| DragDrop.DragOverSetsTargetOnly | we-edit/src/features/bookmarks/hooks/useTreeDragDrop.ts:96-101 | a drag over sets only the target id and the drop position |
| DragDrop.DragStartRecordsSource | we-edit/src/features/bookmarks/hooks/useTreeDragDrop.ts:37-47 | a drag start with data records the source and its parent and starts the drag |
| DragDrop.TreeDragDrop.constructor | we-edit/src/features/bookmarks/hooks/useTreeDragDrop.ts:33 | the handlers act on the given tree hook |
| DragDrop.TreeDragDrop.HandleDragStart | we-edit/src/features/bookmarks/hooks/useTreeDragDrop.ts:37-48 | without drag data nothing changes; otherwise the drag state takes the start update |
| DragDrop.TreeDragDrop.HandleDragEnd | we-edit/src/features/bookmarks/hooks/useTreeDragDrop.ts:50-94 | the tree and drag state become DragEndSpec of the old ones |
| DragDrop.TreeDragDrop.HandleDragOver | we-edit/src/features/bookmarks/hooks/useTreeDragDrop.ts:96-101 | the drag state takes the over update and the tree is kept |
| DragDrop.TreeDragDrop.HandleDragCancel | we-edit/src/features/bookmarks/hooks/useTreeDragDrop.ts:103-105 | only isDragging changes, to false |
| BookmarkOperations.NewBookmark | we-edit/src/features/bookmarks/hooks/useBookmarkOperations.ts:24-30 | the new bookmark has the fresh id, the top-level count as position and the given or null parent |
| BookmarkOperations.NewFolder | we-edit/src/features/bookmarks/hooks/useBookmarkOperations.ts:42-50 | the new folder is expanded and empty, at the top-level count, with the given parent |
| BookmarkOperations.BookmarkUpdate | we-edit/src/features/bookmarks/hooks/useBookmarkOperations.ts:62-65 | updateBookmark's update is always tagged "bookmark" and carries the given fields |
| BookmarkOperations.FolderUpdate | we-edit/src/features/bookmarks/hooks/useBookmarkOperations.ts:75-78 | updateFolder's update is always tagged "folder" and carries only name and isExpanded |
| BookmarkOperations.TopLevelRoots | we-edit/src/features/bookmarks/hooks/useBookmarkOperations.ts:93 | exactly the top-level items whose parentId is null |
| BookmarkOperations.TopLevelRootsAppend | we-edit/src/features/bookmarks/hooks/useBookmarkOperations.ts:93 | the filter keeps the items' order: filtering a concatenation concatenates the filtered parts |
| BookmarkOperations.TopLevelRootsCount | we-edit/src/features/bookmarks/hooks/useBookmarkOperations.ts:93 | each root item is kept exactly as often as it occurs, and every other item is dropped |
| BookmarkOperations.GetFolderContents | we-edit/src/features/bookmarks/hooks/useBookmarkOperations.ts:91-97 | null lists the roots; an id gives the children of a top-level folder with that id, and [] otherwise |
| BookmarkOperations.EnsureRootMakesRoot | we-edit/src/features/bookmarks/hooks/useBookmarkOperations.ts:102-110 | afterwards a root folder exists, and one was added exactly when none existed |
| BookmarkOperations.EnsureRootIdempotent | we-edit/src/features/bookmarks/hooks/useBookmarkOperations.ts:102-110 | a second ensureRootFolder changes nothing |
| BookmarkOperations.CreateAtTopLevelAppends | we-edit/src/features/bookmarks/hooks/useBookmarkOperations.ts:21-53 | an item created with a null parent is appended to the tree |
| BookmarkOperations.BookmarkOperations.constructor | we-edit/src/features/bookmarks/hooks/useBookmarkOperations.ts:16 | the operations act on the given tree hook |
| BookmarkOperations.BookmarkOperations.CreateBookmark | we-edit/src/features/bookmarks/hooks/useBookmarkOperations.ts:21-33 | the new bookmark is added through addItem and returned |
| BookmarkOperations.BookmarkOperations.CreateFolder | we-edit/src/features/bookmarks/hooks/useBookmarkOperations.ts:38-53 | the new folder is added through addItem and returned |
| BookmarkOperations.BookmarkOperations.UpdateBookmark | we-edit/src/features/bookmarks/hooks/useBookmarkOperations.ts:58-66 | the hook's update with the bookmark-tagged update |
| BookmarkOperations.BookmarkOperations.UpdateFolder | we-edit/src/features/bookmarks/hooks/useBookmarkOperations.ts:71-79 | the hook's update with the folder-tagged update |
| BookmarkOperations.BookmarkOperations.DeleteItem | we-edit/src/features/bookmarks/hooks/useBookmarkOperations.ts:84-86 | the hook's removal, which takes the whole subtree |
| BookmarkOperations.BookmarkOperations.EnsureRootFolder | we-edit/src/features/bookmarks/hooks/useBookmarkOperations.ts:102-110 | a root folder is created exactly when none exists |
| ChromeCodec.TruthyParent | we-edit/src/features/bookmarks/components/tree/utils.ts:16-18 | parentId is written only when truthy |
| ChromeCodec.ToChrome | we-edit/src/features/bookmarks/components/tree/utils.ts:9-25 | id, name and position map to id, title and index; children are written only for a folder with at least one child |
| ChromeCodec.ToChromeAll | we-edit/src/features/bookmarks/components/tree/utils.ts:27 | the list keeps its length and order |
| ChromeCodec.FromChrome | we-edit/src/features/bookmarks/components/tree/utils.ts:34-58 | a record with children becomes an expanded folder, any other a bookmark with an empty url; a missing index is 0 and a missing parent null |
| ChromeCodec.FromChromeAll | we-edit/src/features/bookmarks/components/tree/utils.ts:61 | the list keeps its length and order |
| ChromeCodec.RoundTrip | we-edit/src/features/bookmarks/components/tree/utils.ts:8-62 | out and back keeps id, name, position and nesting; a non-empty folder comes back expanded, and an empty folder as a bookmark |
| ChromeCodec.RoundTripAll | we-edit/src/features/bookmarks/components/tree/utils.ts:8-62 | the round trip of a whole list, in order |
| ChromeCodec.EmptyFolderComesBackAsBookmark | we-edit/src/features/bookmarks/components/tree/utils.ts:20-35 | an empty folder comes back as a bookmark |
| ChromeCodec.ToChromeCanonical | we-edit/src/features/bookmarks/components/tree/utils.ts:9-25 | what convertToChrome writes has no empty children list and no falsy parent |
| ChromeCodec.ChromeRoundTrip | we-edit/src/features/bookmarks/components/tree/utils.ts:33-62 | reading a canonical record and writing it back gives the record |
| PlainCodec.ToChrome | we-edit/src/app/_components/bookmark-tree/utils.ts:7-23 | the same field mapping; parentId only when truthy, children only when non-empty |
| PlainCodec.ToChromeAll | we-edit/src/app/_components/bookmark-tree/utils.ts:25 | the list keeps its length and order |
| PlainCodec.FromChrome | we-edit/src/app/_components/bookmark-tree/utils.ts:32-41 | every item is expanded; a missing index is 0, a missing parent null, and missing children [] |
| PlainCodec.FromChromeAll | we-edit/src/app/_components/bookmark-tree/utils.ts:43 | the list keeps its length and order |
| PlainCodec.RoundTrip | we-edit/src/app/_components/bookmark-tree/utils.ts:6-44 | out and back gives the item with every level expanded and every falsy parent null |
| PlainCodec.RoundTripAll | we-edit/src/app/_components/bookmark-tree/utils.ts:6-44 | a list of such items comes back unchanged |
| PlainCodec.ChromeRoundTrip | we-edit/src/app/_components/bookmark-tree/utils.ts:31-44 | reading a canonical record and writing it back gives the record |
| JsString.DecimalString | we-edit/src/features/bookmarks/utils/transform.ts:45 | `String(n)` of an integer is never empty |
| JsString.DigitsInjective | we-edit/src/features/bookmarks/utils/transform.ts:45 | different numbers have different decimal texts, so distinct row ids stay distinct |
| Transform.ParseTags | we-edit/src/features/bookmarks/utils/transform.ts:89-100 | the strings of a parsed array of strings; [] for null, empty, unparsable or any other value |
| Transform.RootFolder | we-edit/src/features/bookmarks/utils/transform.ts:44-52 | a root row becomes an expanded, empty top-level folder with its id as text and `index ?? 0` as position |
| Transform.RowBookmark | we-edit/src/features/bookmarks/utils/transform.ts:61-71 | a child row becomes a bookmark with its url, parent, parsed tags and `index ?? 0` as position |
| Transform.FirstPass | we-edit/src/features/bookmarks/utils/transform.ts:42-56 | every id the first pass maps points at a folder of its result |
| Transform.AppendChild | we-edit/src/features/bookmarks/utils/transform.ts:75 | pushing a child keeps the folder and appends exactly that child |
| Transform.Place | we-edit/src/features/bookmarks/utils/transform.ts:73-79 | placing a row keeps the map pointing at folders and never shortens the top level |
| Transform.SecondPass | we-edit/src/features/bookmarks/utils/transform.ts:59-81 | the second pass keeps the map pointing at folders and never shortens the top level |
| Transform.SortByPosition | we-edit/src/features/bookmarks/utils/transform.ts:107 | the sort keeps the length of the level |
| Transform.SortTree | we-edit/src/features/bookmarks/utils/transform.ts:105-117 | sortTreeItems keeps the length of every level |
| Transform.SortOne | we-edit/src/features/bookmarks/utils/transform.ts:108-115 | an item keeps its id, variant and position |
| Transform.SortChildren | we-edit/src/features/bookmarks/utils/transform.ts:108-116 | each item of the level is replaced in place by its sorted self, so ids and positions stay where they were |
| Transform.TransformDbDataToTreeItems | we-edit/src/features/bookmarks/utils/transform.ts:37-84 | the two loops and the sort return the grouped, sorted tree |
| Transform.SortPermutes | we-edit/src/features/bookmarks/utils/transform.ts:107 | the sort is a permutation of the level |
| Transform.SortSorted | we-edit/src/features/bookmarks/utils/transform.ts:107 | the sort orders the level by non-decreasing position |
| Transform.SortStable | we-edit/src/features/bookmarks/utils/transform.ts:107 | the items at each position keep their relative order |
| Transform.SortTreeIds | we-edit/src/features/bookmarks/utils/transform.ts:105-117 | sortTreeItems keeps every id of the tree exactly as often |
| Transform.SortTreeSorted | we-edit/src/features/bookmarks/utils/transform.ts:105-117 | sortTreeItems orders every level by position |
| Transform.SortCommutes | we-edit/src/features/bookmarks/utils/transform.ts:105-117 | sorting a level and then the children, as the code does, equals sorting the children first |
| Transform.Roots | we-edit/src/features/bookmarks/utils/transform.ts:43 | the root rows are never more than the rows |
| Transform.FirstPassRoots | we-edit/src/features/bookmarks/utils/transform.ts:42-56 | one folder per root row in row order, with the map sending each id to its folder |
| Transform.SecondPassGrows | we-edit/src/features/bookmarks/utils/transform.ts:59-81 | the second pass only appends, so what an earlier row placed is still there |
| Transform.GroupIds | we-edit/src/features/bookmarks/utils/transform.ts:42-81 | grouping holds each row's id exactly as often as the rows do |
| Transform.GroupKeepsRoots | we-edit/src/features/bookmarks/utils/transform.ts:42-56 | the top level starts with one expanded folder per root row, in row order |
| Transform.GroupPlacesRow | we-edit/src/features/bookmarks/utils/transform.ts:59-81 | a child row becomes a bookmark under the folder with its parent id, or at the top level when there is none |
| Transform.TransformResult | we-edit/src/features/bookmarks/utils/transform.ts:37-84 | the result keeps every row exactly once and orders every level by position |
| RoleErrors.CodeText | we-edit/src/core/role/types/errors.ts:12-23 | every code is a "ROLE."-prefixed text |
| RoleErrors.CodeTextInjective | we-edit/src/core/role/types/errors.ts:12-23 | distinct codes have distinct texts |
| RoleErrors.CreateValidationError | we-edit/src/core/role/types/errors.ts:76-84 | a validation error keeps the given validation code, message and field list |
| RoleErrors.CreateHierarchyError | we-edit/src/core/role/types/errors.ts:86-94 | a hierarchy error keeps the given hierarchy code, message and path |
| RoleErrors.CreatePermissionError | we-edit/src/core/role/types/errors.ts:96-105 | a permission error always has PERMISSION_DENIED |
| RoleErrors.CreateNotFoundError | we-edit/src/core/role/types/errors.ts:107-114 | a not-found error always has ROLE_NOT_FOUND |
| RoleErrors.GuardsMatchCodes | we-edit/src/core/role/types/errors.ts:119-135 | each guard holds exactly for its codes |
| RoleErrors.GuardsExclusive | we-edit/src/core/role/types/errors.ts:119-135 | no error passes two guards |
| RoleErrors.ConstructorsPassOwnGuard | we-edit/src/core/role/types/errors.ts:76-135 | every constructor's result passes exactly the guard of its own kind |
| RoleModel.WithoutId | we-edit/src/core/role/models/role.ts:148-150 | a permission is kept exactly when it was there and its id differs |
| RoleModel.CreateRole | we-edit/src/core/role/models/role.ts:33-62 | fails with INVALID_PERMISSION exactly when more than 100 permissions are given, and otherwise keeps every part |
| RoleModel.HasPermissionIff | we-edit/src/core/role/models/role.ts:67-76 | holds exactly when a permission matches context and action with the same or the global scope |
| RoleModel.CanManageIff | we-edit/src/core/role/models/role.ts:81-100 | false at the same or a higher level; below it, holds exactly when some permission manages with global or group scope |
| RoleModel.AddPermission | we-edit/src/core/role/models/role.ts:112-138 | a refusal always carries INVALID_PERMISSION |
| RoleModel.RemovePermission | we-edit/src/core/role/models/role.ts:143-161 | a failure always carries INVALID_PERMISSION |
| RoleModel.SetAddIsUnion | we-edit/src/core/role/models/role.ts:126-127 | adding to a set keeps it a set, whose members are the old ones plus the new one |
| RoleModel.AddPermissionSpec | we-edit/src/core/role/models/role.ts:112-138 | fails exactly at the limit; otherwise the same role with the old permissions plus the new one, which it then grants |
| RoleModel.WithoutIdIsSet | we-edit/src/core/role/models/role.ts:148-150 | filtering keeps a set a set |
| RoleModel.RemovePermissionSpec | we-edit/src/core/role/models/role.ts:143-161 | the same role with exactly the permissions whose id differs, in order |
| RoleModel.AdministratorWithoutManagePermission | we-edit/src/core/role/models/role.test.ts:139-153 | for the test's administrator and member, canManage is false |
| RoleFactory.ValidateRoleParams | we-edit/src/core/role/factories/role.ts:87-114 | the loop returns the missing-field errors followed by the duplicate errors |
| RoleFactory.PushDuplicateErrors | we-edit/src/core/role/factories/role.ts:104-111 | the duplicate loop appends one error for every permission whose id was seen before it |
| RoleFactory.DuplicateErrorsCount | we-edit/src/core/role/factories/role.ts:104-111 | the number of duplicate errors is the number of permissions minus the number of distinct ids |
| RoleFactory.NoDuplicateErrorsIff | we-edit/src/core/role/factories/role.ts:104-111 | there is no duplicate error exactly when the ids are pairwise distinct |
| RoleFactory.ValidationErrorsIff | we-edit/src/core/role/factories/role.ts:87-114 | no error exactly when type and creator are non-empty, the level is a number and no id repeats |
| RoleFactory.DistinctIdsIsSet | we-edit/src/core/role/factories/role.ts:62 | distinct ids make a set, so `new Set` keeps every permission |
| RoleFactory.CreateRole | we-edit/src/core/role/factories/role.ts:37-80 | INVALID_ROLE_TYPE with the errors exactly when validation fails; otherwise version 1, active, last modified by the creator, with the input permissions |
| RoleFactory.HasPermissionImplStricter | we-edit/src/core/role/factories/role.ts:122-131 | the factory's check needs an exact scope; it implies the model's, which also accepts the global scope |
| RoleFactory.CanManageImplStricter | we-edit/src/core/role/factories/role.ts:134-146 | false at the same or a higher level; below it, holds exactly when some permission manages globally, and it implies the model's check |
| RoleFactory.GroupManagerDiffers | we-edit/src/core/role/factories/role.ts:134-146 | a group-scoped manager is refused by the factory and accepted by the model |
| RoleFactory.RoleChecks | we-edit/src/core/role/factories/role.ts:66-77 | roles are equal exactly when their ids are, and a role grants every permission it holds |
| RoleRepository.WithType | we-edit/src/core/role/repositories/role.ts:61-62 | the filter never grows the list |
| RoleRepository.WithLevel | we-edit/src/core/role/repositories/role.ts:71-72 | the filter never grows the list |
| RoleRepository.MatchingAll | we-edit/src/core/role/repositories/role.ts:115-126 | the filter never grows the list |
| RoleRepository.RoleStore.constructor | we-edit/src/core/role/repositories/role.ts:22 | the store starts empty |
| RoleRepository.RoleStore.Save | we-edit/src/core/role/repositories/role.ts:31-41 | the role is set under its id and save succeeds; the map keeps each id once and then finds the saved role |
| RoleRepository.RoleStore.FindById | we-edit/src/core/role/repositories/role.ts:46-55 | the stored role, or ROLE_NOT_FOUND naming the id |
| RoleRepository.RoleStore.FindByType | we-edit/src/core/role/repositories/role.ts:60-65 | the stored roles of that type, in map order |
| RoleRepository.RoleStore.FindByLevel | we-edit/src/core/role/repositories/role.ts:70-75 | the stored roles at that level, in map order |
| RoleRepository.RoleStore.Delete | we-edit/src/core/role/repositories/role.ts:80-97 | an absent id gives an error and no change; a present id is deleted; the map keeps each id once and no longer finds the id |
| RoleRepository.RoleStore.FindAll | we-edit/src/core/role/repositories/role.ts:102-105 | every stored role in map order |
| RoleRepository.RoleStore.FindBy | we-edit/src/core/role/repositories/role.ts:110-129 | the stored roles that meet the criteria, in map order |
| RoleRepository.SetThenGet | we-edit/src/core/role/repositories/role.ts:31-55 | after save the id finds the saved role and every other id finds what it did; ids stay distinct and the map grows only for a new id |
| RoleRepository.DeleteThenGet | we-edit/src/core/role/repositories/role.ts:80-90 | after deleting a stored id it is gone, every other id is unchanged, and the map shrinks by one |
| RoleRepository.WithTypeSpec | we-edit/src/core/role/repositories/role.ts:60-65 | exactly the stored roles of that type |
| RoleRepository.WithLevelSpec | we-edit/src/core/role/repositories/role.ts:70-75 | exactly the stored roles at that level |
| RoleRepository.MatchingAllSpec | we-edit/src/core/role/repositories/role.ts:110-129 | a role is kept exactly when it meets every criterion given; no criteria keeps every role |
| RoleRepository.WithTypeAppend | we-edit/src/core/role/repositories/role.ts:61-62 | the type filter keeps map order: filtering a concatenation concatenates the filtered parts |
| RoleRepository.WithTypeCount | we-edit/src/core/role/repositories/role.ts:61-62 | each role of the type is kept exactly as often as it occurs, and every other role is dropped |
| RoleRepository.WithLevelAppend | we-edit/src/core/role/repositories/role.ts:71-72 | the level filter keeps map order: filtering a concatenation concatenates the filtered parts |
| RoleRepository.WithLevelCount | we-edit/src/core/role/repositories/role.ts:71-72 | each role at the level is kept exactly as often as it occurs, and every other role is dropped |
| RoleRepository.MatchingAllAppend | we-edit/src/core/role/repositories/role.ts:115-126 | the criteria filter keeps map order: filtering a concatenation concatenates the filtered parts |
| RoleRepository.MatchingAllCount | we-edit/src/core/role/repositories/role.ts:115-126 | each role meeting the criteria is kept exactly as often as it occurs, and every other role is dropped |
| EventStore.CreateStoreError | we-edit/src/core/es/store.ts:54-68 | a store error passes through, an Error's message or a string becomes a base error, and anything else is "Unknown error occurred" |
| EventStore.CreateStoreErrorIdempotent | we-edit/src/core/es/store.ts:54-68 | normalising twice is normalising once |
| EventStore.TryCatch | we-edit/src/core/es/store.ts:71-79 | a returned value is ok, and a throw is err of its normalisation |
| EventStore.Store.constructor | we-edit/src/core/es/store.ts:106-110 | nothing stored and version 0 |
| EventStore.Store.SaveReadEvent | we-edit/src/core/es/store.ts:112-126 | each read event is stored alone under its fresh id; events, snapshots and version do not change |
| EventStore.Store.Save | we-edit/src/core/es/store.ts:128-150 | each event is appended under its fresh id, the version goes up by one, and save never fails |
| EventStore.Store.GetEvents | we-edit/src/core/es/store.ts:152-157 | the list under the id, or [] |
| EventStore.Store.GetSnapshot | we-edit/src/core/es/store.ts:159-164 | the stored snapshot, or null |
| EventStore.Store.SaveSnapshot | we-edit/src/core/es/store.ts:166-176 | the snapshot replaces what was stored under the id |
| EventStore.SnapshotRoundTrip | we-edit/src/core/es/store.ts:159-176 | a saved snapshot is read back, an id never saved reads null, and other ids are unchanged |
| EventStore.AppendedKeepsOtherKeys | we-edit/src/core/es/store.ts:130-146 | save touches only the ids it was given |
| EventStore.AppendedFresh | we-edit/src/core/es/store.ts:132-142 | with fresh, distinct ids every event is filed alone under its own id |
| EventStore.AppendedLast | we-edit/src/core/es/store.ts:132-142 | every saved event ends up last in the list under its id, unless a later event took that id |
| EventStore.StoredKeepsOtherKeys | we-edit/src/core/es/store.ts:114-123 | saveReadEvent touches only the ids it was given |
| EventStore.StoredLast | we-edit/src/core/es/store.ts:116-119 | each read event is alone under its id, unless a later event took that id |
| GroupForm.CreateUpdatedSettings | we-edit/src/features/group/types/form.ts:48-55 | the named flag takes the value; the other flag and the notification settings are kept |
| GroupForm.CreateUpdatedNotifications | we-edit/src/features/group/types/form.ts:57-67 | the named notification flag takes the value; every other flag is kept |
| GroupForm.UpdatesIdempotent | we-edit/src/features/group/types/form.ts:48-67 | applying the same update twice equals applying it once |
| GroupForm.UpdateToSameValue | we-edit/src/features/group/types/form.ts:48-67 | setting a flag to its current value changes nothing |
| GroupForm.SettingsUpdatesCommute | we-edit/src/features/group/types/form.ts:48-55 | updates of different top-level flags commute |
| GroupForm.MixedUpdatesCommute | we-edit/src/features/group/types/form.ts:48-67 | a top-level update and a notification update commute |
| GroupForm.HasRequiredFieldsIff | we-edit/src/features/group/types/form.ts:70-83 | holds exactly for complete forms with non-empty name and description; an empty name or description fails |
| GroupForm.InitialFormIncomplete | we-edit/src/features/group/types/form.ts:40-45 | the initial form fails the check, and passes once name and description are filled |
| GroupApi.FindGroup | we-edit/src/features/group/api/mockApi.ts:81 | the found group is in the list with that id, and none is found exactly when no group has it |
| GroupApi.ReplaceGroups | we-edit/src/features/group/api/mockApi.ts:134-136 | every group with the id is replaced and every other stays at its place |
| GroupApi.WithoutGroup | we-edit/src/features/group/api/mockApi.ts:153 | the filter never grows the list |
| GroupApi.WithoutUser | we-edit/src/features/group/api/mockApi.ts:205 | the filter never grows the member list |
| GroupApi.MockGroupApi.constructor | we-edit/src/features/group/api/mockApi.ts:36-65 | the list starts with the seeded group and its two members |
| GroupApi.MockGroupApi.GetGroups | we-edit/src/features/group/api/mockApi.ts:70-76 | success with the whole list |
| GroupApi.MockGroupApi.GetGroup | we-edit/src/features/group/api/mockApi.ts:79-85 | success with the first group with the id, or "Group not found" |
| GroupApi.MockGroupApi.CreateGroup | we-edit/src/features/group/api/mockApi.ts:88-109 | one group is appended, with id g{n+1}, no members, not public and default settings unless given |
| GroupApi.MockGroupApi.UpdateGroup | we-edit/src/features/group/api/mockApi.ts:112-142 | an unknown id fails with no change; otherwise the updated group replaces every group with the id |
| GroupApi.MockGroupApi.DeleteGroup | we-edit/src/features/group/api/mockApi.ts:145-155 | an unknown id fails with no change; otherwise every group with the id goes |
| GroupApi.MockGroupApi.AddMember | we-edit/src/features/group/api/mockApi.ts:158-188 | an unknown group fails; otherwise the group gains exactly one active member at the end |
| GroupApi.MockGroupApi.RemoveMember | we-edit/src/features/group/api/mockApi.ts:191-216 | a missing group or a non-member fails with no change; otherwise every membership of the user goes |
| GroupApi.FindGroupIsFirst | we-edit/src/features/group/api/mockApi.ts:79-85 | getGroup succeeds exactly when some group has the id, and then returns the first such group |
| GroupApi.WithoutGroupSpec | we-edit/src/features/group/api/mockApi.ts:145-155 | exactly the groups with another id are kept, and an id no group has changes nothing |
| GroupApi.WithoutUserSpec | we-edit/src/features/group/api/mockApi.ts:203-206 | exactly the members of other users are kept |
| GroupApi.WithoutGroupAppend | we-edit/src/features/group/api/mockApi.ts:153 | deleting keeps the other groups in order: filtering a concatenation concatenates the filtered parts |
| GroupApi.WithoutGroupCount | we-edit/src/features/group/api/mockApi.ts:153 | every group with another id is kept exactly as often as it occurs, and no group with the id is kept |
| GroupApi.WithoutUserAppend | we-edit/src/features/group/api/mockApi.ts:205 | removing a user keeps the other memberships in order: filtering a concatenation concatenates the filtered parts |
| GroupApi.WithoutUserCount | we-edit/src/features/group/api/mockApi.ts:205 | every membership of another user is kept exactly as often as it occurs, and none of the user's is kept |
| GroupApi.AddThenRemoveMember | we-edit/src/features/group/api/mockApi.ts:158-216 | adding a new user's membership and then removing that user gives back the member list |
| GroupApi.CreateThenGet | we-edit/src/features/group/api/mockApi.ts:79-109 | a created group with an unused id is found under it, and every other id is found as before |
| GroupApi.ReplaceGroupsTouchesOne | we-edit/src/features/group/api/mockApi.ts:112-142 | with distinct ids an update changes only that group, keeps ids distinct, and the id then finds the update |
| GroupApi.UpdatedGroupSpec | we-edit/src/features/group/api/mockApi.ts:120-132 | the update keeps id and members, takes each given field and keeps each absent one |
| GroupApi.CreateAfterDeleteReusesId | we-edit/src/features/group/api/mockApi.ts:92-153 | after deleting g1 from g1, g2, the next group created is also g2 |
| ShadcnUtils.ComposeComponentName | we-edit/src/shadcn/lib/utils.ts:15-17 | the base name, then one dot, then the sub-component name |
| ShadcnUtils.SplitComponentName | we-edit/src/shadcn/lib/utils.ts:15-17 | a split name composes back to the name, and its base has no dot |
| ShadcnUtils.ComposeSplitRoundTrip | we-edit/src/shadcn/lib/utils.ts:15-17 | a composed name whose base has no dot splits back into its two parts |
| ShadcnUtils.GetResponsiveValue | we-edit/src/shadcn/lib/utils.ts:35-40 | the breakpoint's own value when present, and the default otherwise |
| ShadcnUtils.WithValue | we-edit/src/shadcn/lib/utils.ts:24-29 | one breakpoint gets a value and every other breakpoint and the default are kept |
| ShadcnUtils.ResponsiveValueSpec | we-edit/src/shadcn/lib/utils.ts:35-40 | with only a default every breakpoint gives it, and setting one breakpoint changes the result there only |
| ShadcnUtils.AsOption | we-edit/src/shadcn/lib/utils.ts:68-70 | null and undefined both become None, and a value stays itself |
| ShadcnUtils.IsNonNullableIff | we-edit/src/shadcn/lib/utils.ts:68-70 | isNonNullable is false exactly for null and undefined |

## Left out

- **I/O and rendering.** React rendering, dnd-kit sensors, toasts, the file import and export around the codecs, and `cn` are left out. `cn` calls `clsx` and `tailwind-merge`, which are not part of this model. The media-query hook is left out too.
- **Timestamps.** `createdAt`, `updatedAt`, `joinedAt`, `dateAdded`, `createdById` and the base error's timestamp and stack are left out, because no operation branches on them.
- **Fresh identifiers.** Fresh ids are parameters. The model does not state that `crypto.randomUUID`, `ulid`, `Date.now` or `Math.random` produce fresh values; where freshness matters, a lemma takes it as a precondition (`EventStore.AppendedFresh`).
- **`JSON.parse`.** It is a parameter `parse` of `Transform.ParseTags`.
- **Delays.** The delays of the mock API are left out. So is the `setTimeout` before the drag-drop folder expand; the expand is taken as the next step after the move.
- **Async.** Async wrappers and promises are left out. Every operation runs to completion in one step.
- **Dead catch branches.** The repository's `try`/`catch` around `Map.set` and `Map.delete` is not modelled, because those calls cannot throw there.
- **The array check.** The factory's `Array.isArray(params.permissions)` check is not modelled, because a `seq` is always an array.
- **Sets as lists.** A `Set` of permissions is a list with no element twice, compared by value. The source compares permission objects by reference, so two equal-looking objects would both stay in its set.
- **Role fields.** The role's `hasPermission`, `canManage` and `equals` closures are the dispatch predicates `RoleFactory.RoleHasPermission`, `RoleFactory.RoleCanManage` and `RoleFactory.RoleEquals`, chosen by which `createRole` built the role. A permission's optional conditions are left out.
- **The container's tree.** The container reads `tree` from the store. The store has no such field, so in the source it is `undefined`. The model reads the store's items instead.
- **The container's drop position.** The container passes a sortable index as the drop position. It is never "before", "after" or "inside", so the model passes `Unset`.
- **The container's new folder.** The folder `handleCreateFolder` builds has no `type`. The model builds a folder.
- **The untyped item.** The store's `TreeItem` type comes from `types/bookmark-tree.ts`, which has no `type` tag, yet the store's code reads `item.type`. The model uses the typed folder/bookmark item of `features/bookmarks/types/tree.ts`; only the untyped codec uses the untyped item.
- **Event keys.** The event store files events under freshly generated event ids, not under aggregate ids, exactly as the code does. So `getEvents(aggregateId)` finds an aggregate's events only if an id happens to coincide.
- TreeTypes.CalculateTreeDepth: requires that the parent chain ends within |items| + 1 hops. On a cyclic list the source loops for ever.
- Container.ValidateMove: takes ghost fuel and requires that the destination's parent links end within it. On a cycle of parent links that passes through the source, `isCircular` reaches the source id and the program refuses the move, but the model excludes that input. On any other cycle, the program's recursion overflows the stack with a `RangeError`.
- Container.TreeContainer.HandleDragEnd: requires the same ending parent links as validateMove. It therefore also leaves out a drop onto a cycle, which the program either refuses (a cycle through the source) or ends with a stack overflow.
- TreeHook.Assign: a tag naming the other variant rebuilds the item as that variant, with the new variant's fields taken from the update or their defaults. The source keeps the old object's other fields next to the new tag.
- EventStore.Store.SaveReadEvent: takes one fresh id per event as a parameter and requires as many ids as events.
- EventStore.Store.Save: takes one fresh id per event as a parameter and requires as many ids as events.
- GroupApi.MockGroupApi.UpdateGroup: `{ ...current.settings, ...input.settings }` is modelled with a complete settings record in the input, so the merge is the input's settings.
- EventStore.Store.GetEvents: the event records are a map, so an id never saved gives []. The source keeps them in a plain object. An id naming an inherited member such as `toString` or `constructor` finds that member: spreading it throws, so `getEvents` returns err. The model assumes ids never name inherited object members.
- EventStore.Store.GetSnapshot: under the same assumption, an id never saved gives null. In the source, `getSnapshot("constructor")` returns the inherited `Object` function. `EventStore.SnapshotRoundTrip` relies on the same assumption.
- BookmarkOperations.BookmarkOperations.EnsureRootFolder: the folder name is a parameter. The source defaults it to "マイブックマーク".
- Positions are unbounded integers. The source's `position` is a JavaScript number, so fractional, NaN and very large positions are not modelled. Every position the code writes is an index or a count.
- GroupApi.MockGroupApi.CreateGroup: `isPublic` and `settings` are optional in the input because the code defaults them with `??`, although the input type marks them as required.
