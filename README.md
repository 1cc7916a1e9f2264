# MBDump store, modelled in Dafny

MBDump is a macOS menu-bar app that collects snippets ("items": text, links
and file paths) into "canvases". The canvases form a tree: a canvas may be a
folder and may have child canvases. This project models the app's store:

- the `DataStore` class of `MBDump/Models/DataStore.swift`, which holds the
  root list of canvases and the selected canvas id, and every operation on
  them;
- the `Canvas` tree node of `MBDump/Models/Canvas.swift`, with its own
  depth-first search and its tolerant decoding;
- the `Item` record of `MBDump/Models/Item.swift`;
- the flat predecessor `MBDump/Models.swift`, where there are only root
  canvases. It is a module of its own (`FlatStore`).

Layout:

| file | module | models |
|---|---|---|
| `Base.dfy` | `Base` | Swift's `Optional`, `UUID` and `Date` as abstract types, `removeAll(where:)` as `Filter`, duplicate-freedom |
| `Item.dfy` | `ItemModel` | `Item`, `ItemType`, `displayContent`, the content classification of `updateItem`, the per-item edits |
| `Canvas.dfy` | `CanvasModel` | `CanvasType`, `Canvas`, `findCanvas(byId:)`, `childrenForList`, the memberwise `init`, `init(from:)` over a record of optional fields |
| `CanvasEdits.dfy` | `CanvasEdits` | every closure passed to `updateCanvas(withId:update:)`, as a value of `CanvasEdit`, and the item and tag list operations inside them |
| `Tree.dfy` | `CanvasTree` | the recursive helpers `updateCanvasRecursive`, `updateItemTitleRecursive` and `removeCanvas` as functions over the tree, and what they preserve |
| `Folders.dfy` | `Folders` | flattening, parent search, "Folder N" naming, `createNewFolder`, root-level `deleteCanvas` |
| `Paths.dfy` | `TreePaths` | positions in the tree; removal, the two moves and the update of a unique id as a cut, a put or an edit at one position, so that everything else is stated unchanged |
| `Store.dfy` | `Store` | `class DataStore`: one method per operation, with loops where the source loops, each proved equal to the functions above |
| `FlatStore.dfy` | `FlatStore` | `MBDump/Models.swift`: its `Item`, `Canvas` and `class DataStore` |

Each state-changing method of `DataStore` states its whole new state as a
function of the old one (`canvases == UpdatedList(old(canvases), HasId(id), e)`).
The lemmas beside those functions say what that state means.

The tree is read through `PreOrder`, a ghost list of every node, each node
before its descendants. `TreeIds` is the list of their ids, and
`UniqueIds(cs)` says no id occurs twice. The app creates every id with
`UUID()`, so the locality lemmas assume unique ids. Where the source
misbehaves without unique ids, a lemma shows it (`UpdatedRepeatsOnDuplicates`).

Behaviours of the source that the model keeps, each stated by a lemma:

- `updateCanvasRecursive` returns only from the loop it is in. A match inside
  a child subtree does not stop the walk over later siblings, so with a
  repeated id several nodes are edited (`CanvasTree.UpdatedRepeatsOnDuplicates`).
  With unique ids this cannot happen, and the traversal equals "edit every
  matching node" (`CanvasTree.UpdatedIsEverywhere`).
- `addCanvasToExistingFolder` ignores what `removeCanvas` returned and
  appends the caller's `canvas` value:
  - when the folder lies inside the moved canvas, the canvas and its subtree
    are lost (`CanvasTree.AddToFolderLoses`);
  - when the canvas was not in the tree, its value is appended anyway and
    the tree gains its whole subtree (`CanvasTree.AddToFolderDuplicates`);
    the canvas's own id then occurs once, but any descendant of the value
    that is already in the tree now occurs twice
    (`CanvasTree.AddToFolderRepeatsDescendant`).
- `deleteCanvas` removes only root canvases. When the deleted canvas was
  selected, the selection falls back to the first root canvas even if
  nothing was removed (`Store.DataStore.DeleteCanvas`).
- Toggling the same item twice on a todo canvas gives back the same items
  (`CanvasEdits.DoubleToggleSameItems`), but not always in the same order
  (`CanvasEdits.DoubleToggleReorders`).

## Model

| member | source | states |
|---|---|---|
| ItemModel.NewItem | MBDump/Models/Item.swift:9-14 | the initialiser stores id, content, type and creation date unchanged; title, completion and notes start empty |
| ItemModel.DisplayContent | MBDump/Models/Item.swift:16-21 | text and file items show their content; a link shows the host URL parsing gives, or its content when there is none |
| ItemModel.Classify | MBDump/Models/DataStore.swift:164-171 | new content is a link exactly when it starts with "http://" or "https://"; a file only when it starts with "/" or "~"; text never then |
| ItemModel.LinkContentStartsWithHttp | MBDump/Models/DataStore.swift:165-166 | content classified as a link always starts with "http" |
| ItemModel.ApplyChange | MBDump/Models/DataStore.swift:116-204 | each store edit of an item sets its own field and no other: the toggle flips completion, the notes edit sets the notes, the title edit sets the title, the content edit sets the content with the type derived from it; none changes the id or creation date |
| ItemModel.ToggleTwice | MBDump/Models/DataStore.swift:119 | toggling completion twice gives back the same item |
| CanvasModel.ParseCanvasType | MBDump/Models/Canvas.swift:3-5 | a string parses to a type exactly when it is that type's raw value |
| CanvasModel.DisplayName | MBDump/Models/Canvas.swift:7-12 | the display name is the raw value with its first letter capitalised ("Todo", "Articles") |
| CanvasModel.Canvas.ChildrenForList | MBDump/Models/Canvas.swift:25-27 | the list shows children exactly when the canvas is a folder or has children, and then shows all of them |
| CanvasModel.Canvas.Find | MBDump/Models/Canvas.swift:30-40 | the search returns the first node of the subtree, in pre-order, that has the id, or nothing if none has |
| CanvasModel.FindAmong | MBDump/Models/Canvas.swift:34-39 | the search over a list of children returns the first node of that forest, in pre-order, with the id |
| CanvasModel.MakeCanvas | MBDump/Models/Canvas.swift:47-55 | the memberwise initialiser stores every argument; by default there are no items, children or tags, no type, and the canvas is not a folder |
| CanvasModel.Required | MBDump/Models/Canvas.swift:59-61 | a required key decodes exactly when it holds a value of its type, and then to that value |
| CanvasModel.IfPresent | MBDump/Models/Canvas.swift:63-64 | an optional key fails only on a value of the wrong type; absent or null gives the default |
| CanvasModel.DecodeKind | MBDump/Models/Canvas.swift:68-75 | a string `type` is parsed through the raw values; a missing, null or ill-typed value gives no type and never an error |
| CanvasModel.Decode | MBDump/Models/Canvas.swift:57-78 | a decoded canvas carries exactly the id, name and items the record held |
| CanvasModel.Encode | MBDump/Models/Canvas.swift:43-45 | encoding writes every key, leaving out `type` exactly when the canvas has none |
| CanvasModel.DecodeEncode | MBDump/Models/Canvas.swift:57-78 | decoding an encoded canvas gives back the same canvas |
| CanvasModel.DecodeLegacyRecord | MBDump/Models/Canvas.swift:62-64 | a record from before `children`, `isFolder`, `type` and `tags` existed decodes with none of them |
| CanvasModel.DecodeFailsExactly | MBDump/Models/Canvas.swift:57-78 | decoding fails exactly when id, name or items lack a value, or children, isFolder or tags hold a wrong type |
| CanvasModel.DecodeDefaults | MBDump/Models/Canvas.swift:63-77 | present children, isFolder and tags values are carried into the canvas; absent keys take their defaults; "todo" and "articles" map to the enum, and any other or absent type gives no type |
| CanvasEdits.FirstItemIndex | MBDump/Models/DataStore.swift:118 | the index found holds the first item with the id; none is found exactly when no item has it |
| CanvasEdits.ChangeFirstItem | MBDump/Models/DataStore.swift:131-133 | only the first item with the id changes, as the edit says; with no such item the list is unchanged |
| CanvasEdits.WithoutItemSpec | MBDump/Models/DataStore.swift:181 | no item with the id is left; every other item is kept as often as before; a list without the id is unchanged |
| CanvasEdits.TodoOrderSpec | MBDump/Models/DataStore.swift:122-124 | the todo order is a permutation with every incomplete item ahead of every completed one |
| CanvasEdits.ToggleOffTodo | MBDump/Models/DataStore.swift:116-127 | with no matching item nothing changes; off a todo canvas exactly the first matching item has its flag flipped, in place |
| CanvasEdits.ToggleOnTodo | MBDump/Models/DataStore.swift:118-124 | on a todo canvas the result is a permutation of the flipped list with incomplete items first |
| CanvasEdits.ToggledSwaps | MBDump/Models/DataStore.swift:118-124 | on a todo canvas, toggling swaps the first matching item for its flipped copy in the multiset of items |
| CanvasEdits.OnlyFlippedHasId | MBDump/Models/DataStore.swift:118 | with unique item ids, after one toggle the first item with the id is the flipped one |
| CanvasEdits.DoubleToggleSameItems | MBDump/Models/DataStore.swift:116-127 | with unique item ids, toggling one item twice on a todo canvas gives back the same multiset of items |
| CanvasEdits.DoubleToggleReorders | MBDump/Models/DataStore.swift:122-124 | with a, b open and c done, toggling a twice yields b, a, c: the order is not restored |
| CanvasEdits.WithTag | MBDump/Models/DataStore.swift:104-106 | after adding, the tag is present and the tags are the old ones plus it |
| CanvasEdits.WithTagKeepsDistinct | MBDump/Models/DataStore.swift:102-108 | adding a tag keeps a duplicate-free list duplicate-free and only ever appends |
| CanvasEdits.WithoutTagKeepsOrder | MBDump/Models/DataStore.swift:110-114 | removal works piece by piece on a split list and keeps any other single tag, so the remaining tags keep their order |
| CanvasEdits.WithoutTagSpec | MBDump/Models/DataStore.swift:110-114 | no occurrence of the tag is left; every other tag is kept as often as before; duplicate-freedom is kept |
| CanvasEdits.Apply | MBDump/Models/DataStore.swift:90-135 | no closure changes the canvas id; only appending a child changes the children, by one at the end |
| CanvasEdits.ApplyEffects | MBDump/Models/DataStore.swift:90-135 | renameCanvas sets the name, updateCanvasType the type, addTag and removeTag the tags, the notes and title edits the first matching item; every other field is kept and no edit changes whether the canvas is a folder |
| CanvasEdits.NotesAndTitleSpec | MBDump/Models/DataStore.swift:129-135 | the notes and title edits set that field of the first item with the id and keep its title or notes, content, type, id and completion |
| CanvasEdits.UpdateContentSpec | MBDump/Models/DataStore.swift:160-177 | the edited item gets the new content and the type derived from it; its id, creation date, title and notes stay |
| CanvasTree.UpdatedList | MBDump/Models/DataStore.swift:142-151 | the traversal keeps the number of canvases in the list |
| CanvasTree.UpdatedAbsent | MBDump/Models/DataStore.swift:142-151 | when no node matches, the update changes nothing |
| CanvasTree.UniqueIdsAtMostOne | MBDump/Models/DataStore.swift:142-151 | with unique ids at most one node matches an id |
| CanvasTree.UpdatedIsEverywhere | MBDump/Models/DataStore.swift:142-151 | with at most one match, the traversal equals editing every matching node |
| CanvasTree.UpdatedRepeatsOnDuplicates | MBDump/Models/DataStore.swift:143-149 | a repeated id in a child and in a later sibling gets both nodes edited |
| CanvasTree.FoundIffPresent | MBDump/Models/DataStore.swift:30-40 | the search finds a node exactly when the id is in the tree |
| CanvasTree.UpdatedFound | MBDump/Models/DataStore.swift:137-151 | with unique ids, the updated node is found afterwards, carrying exactly the edit |
| CanvasTree.UpdatedElsewhere | MBDump/Models/DataStore.swift:137-151 | with unique ids and a local edit, every other node keeps its own fields |
| CanvasTree.EverywhereShape | MBDump/Models/DataStore.swift:142-151 | a local edit applied at every match keeps the nesting of the tree |
| CanvasTree.UpdatedTouchesOnlyTarget | MBDump/Models/DataStore.swift:142-151 | with at most one match and a local edit, the nesting is the same and, node for node in pre-order, only the match changes, as the edit says; the ids stay where they were |
| CanvasTree.RemovedFrom | MBDump/Models/DataStore.swift:313-325 | a removed node has the id; exactly which node and what is left are pinned by `TreePaths.RemovalIsCut` |
| CanvasTree.RemovedIsFirst | MBDump/Models/DataStore.swift:313-325 | the removed node is the first node with the id in pre-order, the one the search finds |
| CanvasTree.RemovedNothing | MBDump/Models/DataStore.swift:313-325 | when nothing is removed the tree is unchanged |
| CanvasTree.RemovalConserves | MBDump/Models/DataStore.swift:313-325 | the ids left plus the ids of the removed subtree are exactly the ids before |
| CanvasTree.RemovedUnique | MBDump/Models/DataStore.swift:313-325 | removal keeps ids unique and shares no id between the removed subtree and the rest |
| CanvasTree.MoveToRootConserves | MBDump/Models/DataStore.swift:253-260 | moving to root keeps every id, puts the found node last, does nothing when not found, and keeps ids unique |
| CanvasTree.AppendConserves | MBDump/Models/DataStore.swift:248-250 | appending a child to a folder adds exactly the ids of the child's subtree |
| CanvasTree.AddToFolderMoves | MBDump/Models/DataStore.swift:243-251 | when the canvas passed in is the one removed, re-parenting keeps the ids |
| CanvasTree.AddToFolderLoses | MBDump/Models/DataStore.swift:243-251 | when the folder lies inside the moved canvas, the canvas and its subtree are lost |
| CanvasTree.AddToFolderDuplicates | MBDump/Models/DataStore.swift:243-251 | a canvas that was not in the tree is added anyway, its ids on top of the old ones |
| CanvasTree.AddToFolderRepeatsDescendant | MBDump/Models/DataStore.swift:243-251 | when the canvas passed in was not in the tree but one of its descendants was, that descendant's id then occurs twice |
| TreePaths.CutPut | MBDump/Models/DataStore.swift:313-325 | cutting out the subtree at a position and putting it back at the same position gives the tree back |
| TreePaths.PutCut | MBDump/Models/DataStore.swift:313-325 | putting a subtree in at a free position and cutting it out again gives the tree and the subtree back |
| TreePaths.EditIsReplace | MBDump/Models/DataStore.swift:142-151 | editing the node at a position is cutting its subtree out and putting the edited node back in its place: nothing outside the node changes |
| TreePaths.FirstPath | MBDump/Models/Canvas.swift:30-40 | a position found for an id is a valid position of a node with that id |
| TreePaths.FirstPathIffPresent | MBDump/Models/Canvas.swift:30-40 | a position is found exactly when the id is in the tree |
| TreePaths.RemovalIsCut | MBDump/Models/DataStore.swift:313-325 | `removeCanvas` removes nothing and leaves the tree when the id is absent; otherwise it returns the subtree at the first position with the id and leaves exactly the tree with that subtree cut out |
| TreePaths.UpdatedIsEditAt | MBDump/Models/DataStore.swift:137-151 | with unique ids, `updateCanvasRecursive` with any edit, appending a child included, edits the node at the id's position and leaves every other part of the tree as it was |
| TreePaths.MoveToRootIsCut | MBDump/Models/DataStore.swift:253-260 | moving to root cuts the subtree at the id's position and appends it to the roots; the rest is the cut tree |
| TreePaths.AddToFolderIsCutThenAppend | MBDump/Models/DataStore.swift:243-251 | with unique ids, the canvas in the tree and the folder outside it, re-parenting cuts the canvas's subtree out, then appends the value passed in to the folder's children at the folder's position in the cut tree |
| TreePaths.AppendAtIsReplace | MBDump/Models/DataStore.swift:248-250 | appending a child at a position replaces that node by itself with the child last, and nothing else |
| Folders.FlattenPartition | MBDump/Models/DataStore.swift:43-70 | the flattened canvases and folders together hold every node exactly once, split by `isFolder` |
| Folders.RootHasNoParent | MBDump/Models/DataStore.swift:262-279 | with unique ids, a root canvas has no parent folder |
| Folders.ChildHasParent | MBDump/Models/DataStore.swift:266-279 | a child of any node has a parent, which holds it among its children |
| Folders.NatToStringInjective | MBDump/Models/DataStore.swift:291 | distinct numbers print differently |
| Folders.FolderNameInjective | MBDump/Models/DataStore.swift:291 | distinct numbers give distinct "Folder N" names |
| Folders.NamesBelowSpec | MBDump/Models/DataStore.swift:289-292 | the names "Folder 1" to "Folder n-1" are n-1 distinct names |
| Folders.FirstFreeFrom | MBDump/Models/DataStore.swift:289-292 | the loop stops at a number whose name is free, every name below it being taken |
| Folders.FreeFolderNumberSpec | MBDump/Models/DataStore.swift:281-295 | the number chosen is the smallest at least 1 whose "Folder N" is not a folder name in use |
| Folders.RootIndex | MBDump/Models/DataStore.swift:227 | the index found holds the first root canvas with the id; none exactly when no root canvas has it |
| Folders.NewFolder | MBDump/Models/DataStore.swift:234-235 | the new folder is a folder with the name, no items and the canvas as its only child |
| Folders.NewFolderShape | MBDump/Models/DataStore.swift:222-241 | a canvas not at root leaves the tree unchanged; otherwise the root list keeps its length and only that slot holds the new folder |
| Folders.NewFolderIds | MBDump/Models/DataStore.swift:222-241 | wrapping adds exactly the folder's id to the multiset of ids in the tree |
| Folders.NewFolderUnique | MBDump/Models/DataStore.swift:222-241 | with unique ids and a fresh folder id, ids stay unique after wrapping |
| Folders.NewFolderNames | MBDump/Models/DataStore.swift:222-241 | the folder names afterwards are the old ones plus the new name |
| Folders.DeleteSpec | MBDump/Models/DataStore.swift:82-88 | exactly the root canvases without the id stay; the ids lost are those of the removed subtrees; an id not at root changes nothing |
| Folders.TreeIdsFilterSplit | MBDump/Models/DataStore.swift:82-88 | the ids of the kept subtrees and of the removed ones together are the ids of the whole tree |
| Folders.DeleteRemovesId | MBDump/Models/DataStore.swift:82-88 | with unique ids, a deleted root canvas's id is nowhere in the tree afterwards |
| Store.ItemTarget | MBDump/Models/DataStore.swift:154 | the target is the given canvas id, else the first root canvas, else none |
| Store.AddItemAtFront | MBDump/Models/DataStore.swift:153-158 | with unique ids, the item goes in front of the target canvas's items, wherever it is in the tree |
| Store.AddItemNowhere | MBDump/Models/DataStore.swift:153-158 | with no target, or a target not in the tree, nothing changes |
| Store.UpdatedKeepsIds | MBDump/Models/DataStore.swift:137-151 | a local edit keeps the ids of the tree and their uniqueness |
| Store.MoveItemSpec | MBDump/Models/DataStore.swift:185-194 | with unique ids and distinct canvases, the source loses every item with the id and the target gets the item in front |
| Store.MoveItemElsewhere | MBDump/Models/DataStore.swift:185-194 | with unique ids, every canvas other than the source and the target keeps its name, type, tags, folder flag and items |
| Store.MoveItemWithin | MBDump/Models/DataStore.swift:185-194 | with unique ids, a move onto the canvas the item came from leaves it with the item in front and no other item with its id |
| Store.MoveItemDropsItem | MBDump/Models/DataStore.swift:185-194 | with the target missing, the item still leaves the source and goes nowhere |
| Store.DataStore.constructor | MBDump/Models/DataStore.swift:10-23 | loaded canvases are kept, the first selected; with none, a single "Inbox" is created and selected |
| Store.DataStore.SelectedCanvas | MBDump/Models/DataStore.swift:25-28 | no selection gives nothing; otherwise the first node in pre-order with the selected id |
| Store.DataStore.FindCanvas | MBDump/Models/DataStore.swift:30-40 | the loop returns the first node in pre-order with the id |
| Store.DataStore.GetAllCanvases | MBDump/Models/DataStore.swift:43-55 | the result is every non-folder node, in pre-order |
| Store.DataStore.CollectCanvases | MBDump/Models/DataStore.swift:45-52 | the loop collects the non-folder nodes of a forest in pre-order |
| Store.DataStore.GetAllFolders | MBDump/Models/DataStore.swift:58-70 | the result is every folder node, in pre-order |
| Store.DataStore.CollectFolders | MBDump/Models/DataStore.swift:60-67 | the loop collects the folder nodes of a forest in pre-order |
| Store.DataStore.AddCanvas | MBDump/Models/DataStore.swift:72-80 | a new empty canvas is appended at root; the selection is left to the deferred step |
| Store.DataStore.RunDeferredSelection | MBDump/Models/DataStore.swift:76-78 | the deferred block selects the new canvas and changes nothing else |
| Store.DataStore.DeleteCanvas | MBDump/Models/DataStore.swift:82-88 | root canvases with the id go; a deleted selection falls back to the first root canvas or none |
| Store.DataStore.UpdateCanvas | MBDump/Models/DataStore.swift:138-140 | the tree becomes the traversal's result; the selection stays |
| Store.DataStore.UpdateCanvasRecursive | MBDump/Models/DataStore.swift:142-151 | the loop over siblings, with its early return and its descent into children, computes the traversal |
| Store.DataStore.RenameCanvas | MBDump/Models/DataStore.swift:90-94 | the tree is updated by the rename edit at the canvas's id |
| Store.DataStore.UpdateCanvasType | MBDump/Models/DataStore.swift:96-100 | the tree is updated by setting the type at the canvas's id |
| Store.DataStore.AddTag | MBDump/Models/DataStore.swift:102-108 | the tree is updated by adding the tag at the canvas's id |
| Store.DataStore.RemoveTag | MBDump/Models/DataStore.swift:110-114 | the tree is updated by removing the tag at the canvas's id |
| Store.DataStore.ToggleItemCompletion | MBDump/Models/DataStore.swift:116-127 | the tree is updated by the toggle-and-sort edit at the canvas's id |
| Store.DataStore.UpdateItemNotes | MBDump/Models/DataStore.swift:129-135 | the tree is updated by setting the first matching item's notes at the canvas's id |
| Store.DataStore.AddItem | MBDump/Models/DataStore.swift:153-158 | the tree becomes the one with the item added at the target |
| Store.DataStore.UpdateItem | MBDump/Models/DataStore.swift:160-177 | the tree is updated by the content edit at the canvas's id |
| Store.DataStore.DeleteItem | MBDump/Models/DataStore.swift:179-183 | the tree is updated by removing every item with the id at the canvas's id |
| Store.DataStore.MoveItem | MBDump/Models/DataStore.swift:185-194 | removal at the source, then front insertion at the target |
| Store.DataStore.UpdateItemTitle | MBDump/Models/DataStore.swift:196-198 | the tree is updated by the traversal that, in a canvas holding the item, sets the first such item's title |
| Store.DataStore.UpdateItemTitleRecursive | MBDump/Models/DataStore.swift:200-209 | the loop computes the traversal that edits the canvases holding the item |
| Store.DataStore.CreateNewFolder | MBDump/Models/DataStore.swift:222-241 | the canvas's root slot becomes a folder named with the first free "Folder N", holding the canvas |
| Store.DataStore.GenerateFolderName | MBDump/Models/DataStore.swift:281-295 | the loop ends, at the first free "Folder N" |
| Store.DataStore.GetAllFolderNames | MBDump/Models/DataStore.swift:297-311 | the result is the set of names of every folder in the tree |
| Store.DataStore.CollectNames | MBDump/Models/DataStore.swift:300-307 | the loop collects the names of the folders of a forest |
| Store.DataStore.AddCanvasToExistingFolder | MBDump/Models/DataStore.swift:243-251 | the canvas is removed wherever it is, then the value passed in is appended to the folder |
| Store.DataStore.MoveCanvasToRoot | MBDump/Models/DataStore.swift:253-260 | the removed node, if any, is appended at root |
| Store.DataStore.IsCanvasInFolder | MBDump/Models/DataStore.swift:262-264 | true exactly when some node has the canvas among its children |
| Store.DataStore.GetParentFolder | MBDump/Models/DataStore.swift:266-279 | the first node in pre-order with the canvas among its children |
| Store.DataStore.FindParent | MBDump/Models/DataStore.swift:267-277 | the loop returns the first node of a forest, in pre-order, with the canvas among its children |
| Store.DataStore.RemoveCanvas | MBDump/Models/DataStore.swift:313-325 | the loop removes and returns the first node with the id, and leaves the tree the removal describes |
| FlatStore.DisplayContent | MBDump/Models.swift:15-20 | text and file items show their content; a link shows its host, or its content when there is none |
| FlatStore.NewCanvas | MBDump/Models.swift:23-27 | a new canvas has the id and name and no items |
| FlatStore.FirstIndex | MBDump/Models.swift:74 | the index found holds the first root canvas with the id; none exactly when none has it, or the target is nil |
| FlatStore.Renamed | MBDump/Models.swift:73-78 | only the first root canvas with the id changes, and only its name; absent, nothing changes |
| FlatStore.Inserted | MBDump/Models.swift:80-86 | only the first root canvas with the target id changes: the item goes in front of its items |
| FlatStore.ItemRemoved | MBDump/Models.swift:88-93 | only the first root canvas with the id changes: every item with the item id leaves it |
| FlatStore.Moved | MBDump/Models.swift:95-102 | nothing changes unless both canvases are at root |
| FlatStore.ItemRemovedKeepsIndex | MBDump/Models.swift:96-99 | removing items does not move canvases, so both lookups agree with the state after the removal |
| FlatStore.MovedBetween | MBDump/Models.swift:95-102 | between distinct root canvases, the source keeps exactly its items without the id, in order, the target gets the item in front, the rest stays |
| FlatStore.MovedWithin | MBDump/Models.swift:95-102 | within one canvas the item ends up in front, every other copy of its id gone |
| FlatStore.Deleted | MBDump/Models.swift:65-66 | exactly the root canvases without the id stay |
| FlatStore.DeletedAbsent | MBDump/Models.swift:66 | deleting an id not at root changes nothing |
| FlatStore.DataStore.constructor | MBDump/Models.swift:35-49 | loaded canvases are kept, the first selected; with none, a single "Inbox" is created and selected |
| FlatStore.DataStore.SelectedCanvas | MBDump/Models.swift:51-53 | the first root canvas with the selected id; nothing when none has it or there is no selection |
| FlatStore.DataStore.AddCanvas | MBDump/Models.swift:55-63 | a new empty canvas is appended; the selection is left to the deferred step |
| FlatStore.DataStore.RunDeferredSelection | MBDump/Models.swift:59-61 | the deferred block selects the new canvas and changes nothing else |
| FlatStore.DataStore.DeleteCanvas | MBDump/Models.swift:65-71 | canvases with the id go; a deleted selection falls back to the first remaining canvas or none |
| FlatStore.DataStore.RenameCanvas | MBDump/Models.swift:73-78 | the list becomes the renamed list |
| FlatStore.DataStore.AddItem | MBDump/Models.swift:80-86 | the item is inserted at the given canvas, defaulting to the first canvas |
| FlatStore.DataStore.DeleteItem | MBDump/Models.swift:88-93 | the items with the id leave the matching canvas only |
| FlatStore.DataStore.MoveItem | MBDump/Models.swift:95-102 | both lookups first, then removal and insertion, or nothing |

## Left out

- `save()` and `load()`: file I/O and JSON coding. Saving changes no modelled state and is left out. What `load()` decoded is a constructor parameter. The decoding of one canvas is modelled by `CanvasModel.Decode`; the decoding of nested items and children inside a record is not.
- `DispatchQueue.main.async` in `addCanvas`: main-queue scheduling. `AddCanvas` returns the new id and `RunDeferredSelection` is the later step. Interleavings with other operations are not modelled.
- `UUID()` and `Date()`: fresh ids and timestamps are parameters.
- ItemModel.NewItem: `MBDump/Models/Item.swift` declares only id, content, type and creation date, while `MBDump/Models/DataStore.swift` reads and writes `isCompleted`, `notes` and `title` on items (lines 119, 132 and 203). The declarations of those three fields are not part of this model, so their defaults for a new item (not completed, no notes, no title) are the model's choice.
- `reorderItems` and `reorderCanvases`: they call SwiftUI's `move(fromOffsets:toOffset:)`, a library extension whose code is not part of this model.
- `URL(string:)?.host` in `displayContent`: a function parameter `hostOf`, not interpreted.
- MBDump/Utils/urlUtils.swift (regular expressions, HTML parsing, network), the SwiftUI and AppKit views, the app delegate and the drop delegates are not part of this model.
- CanvasEdits.DoubleToggleReorders: the order [b, a, c] it proves is the stable sort's; an unstable sort the comparator also allows could return [a, b, c].
- ItemModel.Classify, CanvasEdits.WithTag, CanvasEdits.WithoutTag, Base.StartsWith: strings are sequences of code points. Swift compares `String` values by canonical equivalence and `hasPrefix` by grapheme clusters; neither is modelled, so tags that differ only in normalisation are distinct here, and content such as "/" followed by a combining mark is classified by its first code point.
- CanvasEdits.TodoOrder: models `items.sort { !$0.isCompleted && $1.isCompleted }` as a stable partition, incomplete items first. Swift's `sort` is not documented as stable, so the model fixes one order among those the comparator allows. The proved facts (a permutation, incomplete items first) hold for any order the comparator allows, except `CanvasEdits.DoubleToggleReorders`, whose concrete result depends on the stable order chosen.
- Store.DataStore.CollectCanvases, Store.DataStore.CollectFolders, Store.DataStore.CollectNames: the nested Swift functions append to an accumulator captured from the enclosing function. The model returns each recursive call's result and appends it, which gives the same final list.
- Store.DataStore.UpdateCanvasRecursive, Store.DataStore.UpdateItemTitleRecursive, Store.DataStore.RemoveCanvas: Swift passes `inout` slices of nested arrays. The model takes the list as a value and returns the new list, which the caller stores.
- CanvasTree.UpdatedElsewhere, CanvasTree.UpdatedTouchesOnlyTarget: locality is stated under unique ids. Without them the source can edit several nodes, as `CanvasTree.UpdatedRepeatsOnDuplicates` shows.
- Store.DataStore.ToggleItemCompletion, Store.DataStore.UpdateItemNotes, Store.DataStore.UpdateItem: per-canvas effects are stated on `CanvasEdits.Apply` and its lemmas (`CanvasEdits.ApplyEffects`, `CanvasEdits.NotesAndTitleSpec`, `CanvasEdits.UpdateContentSpec`, `CanvasEdits.ToggleOnTodo`, `CanvasEdits.ToggleOffTodo`). At tree level, `CanvasTree.UpdatedFound` and `CanvasTree.UpdatedElsewhere` carry them to the node with the id.
