/** `DataStore` of MBDump/Models/DataStore.swift: the root list of
    canvases and the selection, and every operation on them, each proved
    against the functions of CanvasTree and Folders that say what it does. */
module Store {
  import opened Base
  import opened ItemModel
  import opened CanvasModel
  import opened CanvasEdits
  import opened CanvasTree
  import opened Folders

  /** `canvasId ?? canvases.first?.id`: where `addItem` puts an item. */
  function ItemTarget(canvasId: Option<Id>, cs: seq<Canvas>): (r: Option<Id>)
    ensures canvasId.Some? ==> r == canvasId
    ensures canvasId.None? && cs != [] ==> r == Some(cs[0].id)
    ensures canvasId.None? && cs == [] ==> r.None?
  {
    if canvasId.Some? then canvasId else if cs == [] then None else Some(cs[0].id)
  }

  /** The tree `addItem` leaves. */
  function WithItemAdded(cs: seq<Canvas>, item: Item, canvasId: Option<Id>): seq<Canvas>
  {
    match ItemTarget(canvasId, cs)
    case None => cs
    case Some(t) => UpdatedList(cs, HasId(t), InsertItem(item))
  }

  /** The tree `moveItem` leaves: every item with the id out of the
      source, then the item in at the front of the target. */
  function WithItemMoved(cs: seq<Canvas>, item: Item, sourceId: Id, targetId: Id): seq<Canvas>
  {
    UpdatedList(UpdatedList(cs, HasId(sourceId), RemoveItem(item.id)), HasId(targetId), InsertItem(item))
  }

  /** With unique ids, `addItem` puts the item in front of the items of
      the canvas it aims at, wherever in the tree that canvas is. */
  lemma AddItemAtFront(cs: seq<Canvas>, item: Item, canvasId: Option<Id>, t: Id)
    requires UniqueIds(cs) && ItemTarget(canvasId, cs) == Some(t) && t in TreeIds(cs)
    ensures FindAmong(cs, t).Some? && FindAmong(WithItemAdded(cs, item, canvasId), t).Some?
    ensures FindAmong(WithItemAdded(cs, item, canvasId), t).value.items == [item] + FindAmong(cs, t).value.items
  {
    var r := WithItemAdded(cs, item, canvasId);
    assert r == UpdatedList(cs, HasId(t), InsertItem(item));
    UpdatedFound(cs, t, InsertItem(item));
    ApplyItemEdits(FindAmong(cs, t).value, item, item.id);
  }

  /** `addItem` changes nothing when the root list is empty and no canvas
      is named, or when the named canvas is not in the tree. */
  lemma AddItemNowhere(cs: seq<Canvas>, item: Item, canvasId: Option<Id>)
    requires ItemTarget(canvasId, cs).None? || ItemTarget(canvasId, cs).value !in TreeIds(cs)
    ensures WithItemAdded(cs, item, canvasId) == cs
  {
    if ItemTarget(canvasId, cs).Some? {
      var t := ItemTarget(canvasId, cs).value;
      AbsentIdNoneMatch(cs, t);
      UpdatedAbsent(cs, HasId(t), InsertItem(item));
    }
  }

  /** A local edit of the node with an id keeps the ids, and so their
      uniqueness. */
  lemma UpdatedKeepsIds(cs: seq<Canvas>, id: Id, e: CanvasEdit)
    requires UniqueIds(cs) && e.IsLocal()
    ensures TreeIds(UpdatedList(cs, HasId(id), e)) == TreeIds(cs)
    ensures UniqueIds(UpdatedList(cs, HasId(id), e))
  {
    UniqueIdsAtMostOne(cs, id);
    UpdatedTouchesOnlyTarget(cs, HasId(id), e);
  }

  /** With unique ids and two distinct canvases in the tree, `moveItem`
      leaves the source without any item with the moved id, and the
      target with the item in front of its old items; every other canvas
      is left as it was (`MoveItemElsewhere`). */
  lemma MoveItemSpec(cs: seq<Canvas>, item: Item, sourceId: Id, targetId: Id)
    requires UniqueIds(cs) && sourceId != targetId
    requires sourceId in TreeIds(cs) && targetId in TreeIds(cs)
    ensures FindAmong(cs, sourceId).Some? && FindAmong(cs, targetId).Some?
    ensures FindAmong(WithItemMoved(cs, item, sourceId, targetId), sourceId).Some?
    ensures FindAmong(WithItemMoved(cs, item, sourceId, targetId), targetId).Some?
    ensures FindAmong(WithItemMoved(cs, item, sourceId, targetId), sourceId).value.items
            == WithoutItem(FindAmong(cs, sourceId).value.items, item.id)
    ensures FindAmong(WithItemMoved(cs, item, sourceId, targetId), targetId).value.items
            == [item] + FindAmong(cs, targetId).value.items
  {
    var mid := UpdatedList(cs, HasId(sourceId), RemoveItem(item.id));
    UpdatedFound(cs, sourceId, RemoveItem(item.id));
    ApplyItemEdits(FindAmong(cs, sourceId).value, item, item.id);
    UpdatedElsewhere(cs, sourceId, targetId, RemoveItem(item.id));
    assert FindAmong(mid, targetId).value.items == FindAmong(cs, targetId).value.items by {
      assert Header(FindAmong(mid, targetId).value).items == FindAmong(mid, targetId).value.items;
    }
    UpdatedKeepsIds(cs, sourceId, RemoveItem(item.id));
    UpdatedFound(mid, targetId, InsertItem(item));
    ApplyItemEdits(FindAmong(mid, targetId).value, item, item.id);
    UpdatedElsewhere(mid, targetId, sourceId, InsertItem(item));
    var moved := UpdatedList(mid, HasId(targetId), InsertItem(item));
    assert FindAmong(moved, sourceId).value.items == FindAmong(mid, sourceId).value.items by {
      assert Header(FindAmong(moved, sourceId).value).items == FindAmong(moved, sourceId).value.items;
    }
  }

  /** `moveItem` touches no other canvas: every canvas other than the
      source and the target keeps its name, type, tags, folder flag and
      items (its subtree may hold the two that change). */
  lemma MoveItemElsewhere(cs: seq<Canvas>, item: Item, sourceId: Id, targetId: Id, other: Id)
    requires UniqueIds(cs) && other in TreeIds(cs)
    requires other != sourceId && other != targetId
    ensures FindAmong(cs, other).Some?
    ensures FindAmong(WithItemMoved(cs, item, sourceId, targetId), other).Some?
    ensures Header(FindAmong(WithItemMoved(cs, item, sourceId, targetId), other).value)
            == Header(FindAmong(cs, other).value)
  {
    var mid := UpdatedList(cs, HasId(sourceId), RemoveItem(item.id));
    UpdatedElsewhere(cs, sourceId, other, RemoveItem(item.id));
    UpdatedKeepsIds(cs, sourceId, RemoveItem(item.id));
    UpdatedElsewhere(mid, targetId, other, InsertItem(item));
  }

  /** With unique ids, moving an item within one canvas (a drop onto the
      canvas it came from) leaves that canvas with the item in front and
      no other item with its id. */
  lemma MoveItemWithin(cs: seq<Canvas>, item: Item, id: Id)
    requires UniqueIds(cs) && id in TreeIds(cs)
    ensures FindAmong(cs, id).Some? && FindAmong(WithItemMoved(cs, item, id, id), id).Some?
    ensures FindAmong(WithItemMoved(cs, item, id, id), id).value.items
            == [item] + WithoutItem(FindAmong(cs, id).value.items, item.id)
  {
    var mid := UpdatedList(cs, HasId(id), RemoveItem(item.id));
    UpdatedFound(cs, id, RemoveItem(item.id));
    ApplyItemEdits(FindAmong(cs, id).value, item, item.id);
    UpdatedKeepsIds(cs, id, RemoveItem(item.id));
    UpdatedFound(mid, id, InsertItem(item));
    ApplyItemEdits(FindAmong(mid, id).value, item, item.id);
  }

  /** With unique ids, when the target is not in the tree `moveItem`
      still takes the item out of the source, and puts it nowhere. */
  lemma MoveItemDropsItem(cs: seq<Canvas>, item: Item, sourceId: Id, targetId: Id)
    requires UniqueIds(cs) && targetId !in TreeIds(cs)
    ensures WithItemMoved(cs, item, sourceId, targetId) == UpdatedList(cs, HasId(sourceId), RemoveItem(item.id))
  {
    var mid := UpdatedList(cs, HasId(sourceId), RemoveItem(item.id));
    UpdatedKeepsIds(cs, sourceId, RemoveItem(item.id));
    AbsentIdNoneMatch(mid, targetId);
    UpdatedAbsent(mid, HasId(targetId), InsertItem(item));
  }

  class DataStore {
    var canvases: seq<Canvas>
    var selectedCanvasId: Option<Id>

    /** `init()`. `loaded` is what `load()` decoded, empty when there was
        no file or it did not decode; `inboxId` is the fresh id of the
        default canvas. */
    constructor(loaded: seq<Canvas>, inboxId: Id)
      ensures loaded != [] ==> canvases == loaded && selectedCanvasId == Some(loaded[0].id)
      ensures loaded == [] ==> canvases == [MakeCanvas(inboxId, "Inbox")] && selectedCanvasId == Some(inboxId)
    {
      canvases := loaded;
      selectedCanvasId := if loaded != [] then Some(loaded[0].id) else None;
      new;
      if canvases == [] {
        var inbox := MakeCanvas(inboxId, "Inbox");
        canvases := canvases + [inbox];
        selectedCanvasId := Some(inbox.id);
      }
    }

    /** `selectedCanvas` */
    method SelectedCanvas() returns (r: Option<Canvas>)
      ensures selectedCanvasId.None? ==> r.None?
      ensures selectedCanvasId.Some? ==> r == FirstWithId(PreOrder(canvases), selectedCanvasId.value)
    {
      if selectedCanvasId.None? {
        return None;
      }
      r := FindCanvas(selectedCanvasId.value, canvases);
    }

    /** `findCanvas(byId:in:)`: the first node in pre-order with the id. */
    method FindCanvas(id: Id, cs: seq<Canvas>) returns (r: Option<Canvas>)
      ensures r == FirstWithId(PreOrder(cs), id)
      decreases cs
    {
      var i := 0;
      while i < |cs|
        invariant 0 <= i <= |cs|
        invariant FirstWithId(PreOrder(cs[..i]), id).None?
      {
        PreOrderAt(cs, i);
        assert cs == cs[..i] + cs[i..];
        PreOrderConcat(cs[..i], cs[i..]);
        FirstWithIdConcat(PreOrder(cs[..i]), PreOrder(cs[i..]), id);
        FirstWithIdConcat([cs[i]] + PreOrder(cs[i].children), PreOrder(cs[i + 1..]), id);
        FirstWithIdConcat([cs[i]], PreOrder(cs[i].children), id);
        if cs[i].id == id {
          return Some(cs[i]);
        }
        var found := FindCanvas(id, cs[i].children);
        if found.Some? {
          return found;
        }
        FirstWithIdConcat(PreOrder(cs[..i]), [cs[i]] + PreOrder(cs[i].children), id);
        i := i + 1;
      }
      assert cs[..i] == cs;
      return None;
    }

    /** `getAllCanvases` */
    method GetAllCanvases() returns (result: seq<Canvas>)
      ensures result == AllCanvases(canvases)
    {
      result := CollectCanvases(canvases);
    }

    /** `collectCanvases` inside `getAllCanvases`: every non-folder node,
        in pre-order. */
    method CollectCanvases(cs: seq<Canvas>) returns (result: seq<Canvas>)
      ensures result == Filter(PreOrder(cs), IsPlainNode)
      decreases cs
    {
      result := [];
      var i := 0;
      while i < |cs|
        invariant 0 <= i <= |cs|
        invariant result == Filter(PreOrder(cs[..i]), IsPlainNode)
      {
        ghost var before := result;
        if !cs[i].isFolder {
          result := result + [cs[i]];
        }
        var below := CollectCanvases(cs[i].children);
        result := result + below;
        FlattenStep(cs, i, IsPlainNode, before, below);
        i := i + 1;
      }
      assert cs[..i] == cs;
    }

    /** `getAllFolders` */
    method GetAllFolders() returns (result: seq<Canvas>)
      ensures result == AllFolders(canvases)
    {
      result := CollectFolders(canvases);
    }

    /** `collectFolders` inside `getAllFolders`: every folder node, in pre-order. */
    method CollectFolders(cs: seq<Canvas>) returns (result: seq<Canvas>)
      ensures result == Filter(PreOrder(cs), IsFolderNode)
      decreases cs
    {
      result := [];
      var i := 0;
      while i < |cs|
        invariant 0 <= i <= |cs|
        invariant result == Filter(PreOrder(cs[..i]), IsFolderNode)
      {
        ghost var before := result;
        if cs[i].isFolder {
          result := result + [cs[i]];
        }
        var below := CollectFolders(cs[i].children);
        result := result + below;
        FlattenStep(cs, i, IsFolderNode, before, below);
        i := i + 1;
      }
      assert cs[..i] == cs;
    }

    /** `addCanvas(name:)`: a new empty canvas at the end of the root list.
        The selection moves to it only later, on the main queue: the id to
        select is returned for `RunDeferredSelection`. */
    method AddCanvas(name: string, newId: Id) returns (pending: Id)
      modifies this
      ensures canvases == old(canvases) + [MakeCanvas(newId, name)]
      ensures selectedCanvasId == old(selectedCanvasId)
      ensures pending == newId
    {
      var canvas := MakeCanvas(newId, name);
      canvases := canvases + [canvas];
      pending := canvas.id;
    }

    /** The block `addCanvas` schedules on the main queue. */
    method RunDeferredSelection(id: Id)
      modifies this
      ensures selectedCanvasId == Some(id) && canvases == old(canvases)
    {
      selectedCanvasId := Some(id);
    }

    /** `deleteCanvas`: every root with the canvas's id goes; a selection
        of that id falls back to the first remaining root, or to none. */
    method DeleteCanvas(canvas: Canvas)
      modifies this
      ensures canvases == DeletedAtRoot(old(canvases), canvas.id)
      ensures old(selectedCanvasId) == Some(canvas.id) ==>
                selectedCanvasId == if canvases == [] then None else Some(canvases[0].id)
      ensures old(selectedCanvasId) != Some(canvas.id) ==> selectedCanvasId == old(selectedCanvasId)
    {
      canvases := DeletedAtRoot(canvases, canvas.id);
      if selectedCanvasId == Some(canvas.id) {
        selectedCanvasId := if canvases == [] then None else Some(canvases[0].id);
      }
    }

    /** `updateCanvas(withId:update:)` */
    method UpdateCanvas(id: Id, e: CanvasEdit)
      modifies this
      ensures canvases == UpdatedList(old(canvases), HasId(id), e)
      ensures selectedCanvasId == old(selectedCanvasId)
    {
      canvases := UpdateCanvasRecursive(id, canvases, e);
    }

    /** `updateCanvasRecursive(id:canvases:update:)`, the `inout` array
        handed back as the result. */
    method UpdateCanvasRecursive(id: Id, cs: seq<Canvas>, e: CanvasEdit) returns (r: seq<Canvas>)
      ensures r == UpdatedList(cs, HasId(id), e)
      decreases cs
    {
      r := cs;
      WalkEnds(cs, r, HasId(id), e);
      var i := 0;
      while i < |r|
        invariant WalkedTo(cs, r, i, HasId(id), e)
      {
        if r[i].id == id {
          WalkHit(cs, r, i, HasId(id), e);
          r := r[i := Apply(e, r[i])];
          return;
        }
        WalkMiss(cs, r, i, HasId(id), e, UpdatedList(cs[i].children, HasId(id), e));
        var kids := UpdateCanvasRecursive(id, r[i].children, e);
        r := r[i := r[i].(children := kids)];
        i := i + 1;
      }
      WalkEnds(cs, r, HasId(id), e);
    }

    /** `renameCanvas(_:to:)` */
    method RenameCanvas(canvas: Canvas, newName: string)
      modifies this
      ensures canvases == UpdatedList(old(canvases), HasId(canvas.id), Rename(newName))
      ensures selectedCanvasId == old(selectedCanvasId)
    {
      UpdateCanvas(canvas.id, Rename(newName));
    }

    /** `updateCanvasType(_:type:)` */
    method UpdateCanvasType(canvas: Canvas, kind: Option<CanvasType>)
      modifies this
      ensures canvases == UpdatedList(old(canvases), HasId(canvas.id), SetKind(kind))
      ensures selectedCanvasId == old(selectedCanvasId)
    {
      UpdateCanvas(canvas.id, SetKind(kind));
    }

    /** `addTag(to:tag:)` */
    method AddTag(canvas: Canvas, tag: string)
      modifies this
      ensures canvases == UpdatedList(old(canvases), HasId(canvas.id), CanvasEdit.AddTag(tag))
      ensures selectedCanvasId == old(selectedCanvasId)
    {
      UpdateCanvas(canvas.id, CanvasEdit.AddTag(tag));
    }

    /** `removeTag(from:tag:)` */
    method RemoveTag(canvas: Canvas, tag: string)
      modifies this
      ensures canvases == UpdatedList(old(canvases), HasId(canvas.id), CanvasEdit.RemoveTag(tag))
      ensures selectedCanvasId == old(selectedCanvasId)
    {
      UpdateCanvas(canvas.id, CanvasEdit.RemoveTag(tag));
    }

    /** `toggleItemCompletion(_:in:)` */
    method ToggleItemCompletion(item: Item, canvas: Canvas)
      modifies this
      ensures canvases == UpdatedList(old(canvases), HasId(canvas.id), ToggleCompletion(item.id))
      ensures selectedCanvasId == old(selectedCanvasId)
    {
      UpdateCanvas(canvas.id, ToggleCompletion(item.id));
    }

    /** `updateItemNotes(_:in:notes:)` */
    method UpdateItemNotes(item: Item, canvas: Canvas, notes: Option<string>)
      modifies this
      ensures canvases == UpdatedList(old(canvases), HasId(canvas.id), UpdateNotes(item.id, notes))
      ensures selectedCanvasId == old(selectedCanvasId)
    {
      UpdateCanvas(canvas.id, UpdateNotes(item.id, notes));
    }

    /** `addItem(_:to:)` */
    method AddItem(item: Item, canvasId: Option<Id>)
      modifies this
      ensures canvases == WithItemAdded(old(canvases), item, canvasId)
      ensures selectedCanvasId == old(selectedCanvasId)
    {
      var target := if canvasId.Some? then canvasId else if canvases == [] then None else Some(canvases[0].id);
      if target.None? {
        return;
      }
      UpdateCanvas(target.value, InsertItem(item));
    }

    /** `updateItem(_:in:newContent:)` */
    method UpdateItem(item: Item, canvas: Canvas, newContent: string)
      modifies this
      ensures canvases == UpdatedList(old(canvases), HasId(canvas.id), UpdateContent(item.id, newContent))
      ensures selectedCanvasId == old(selectedCanvasId)
    {
      UpdateCanvas(canvas.id, UpdateContent(item.id, newContent));
    }

    /** `deleteItem(_:from:)` */
    method DeleteItem(item: Item, canvas: Canvas)
      modifies this
      ensures canvases == UpdatedList(old(canvases), HasId(canvas.id), RemoveItem(item.id))
      ensures selectedCanvasId == old(selectedCanvasId)
    {
      UpdateCanvas(canvas.id, RemoveItem(item.id));
    }

    /** `moveItem(_:from:to:)` */
    method MoveItem(item: Item, source: Canvas, target: Canvas)
      modifies this
      ensures canvases == WithItemMoved(old(canvases), item, source.id, target.id)
      ensures selectedCanvasId == old(selectedCanvasId)
    {
      UpdateCanvas(source.id, RemoveItem(item.id));
      UpdateCanvas(target.id, InsertItem(item));
    }

    /** `updateItemTitle(itemId:title:)` */
    method UpdateItemTitle(itemId: Id, title: Option<string>)
      modifies this
      ensures canvases == UpdatedList(old(canvases), HoldsItem(itemId), SetItemTitle(itemId, title))
      ensures selectedCanvasId == old(selectedCanvasId)
    {
      canvases := UpdateItemTitleRecursive(itemId, title, canvases);
    }

    /** `updateItemTitleRecursive(itemId:title:in:)`: the first canvas of a
        level holding the item has that item retitled. */
    method UpdateItemTitleRecursive(itemId: Id, title: Option<string>, cs: seq<Canvas>) returns (r: seq<Canvas>)
      ensures r == UpdatedList(cs, HoldsItem(itemId), SetItemTitle(itemId, title))
      decreases cs
    {
      ghost var at, e := HoldsItem(itemId), SetItemTitle(itemId, title);
      r := cs;
      WalkEnds(cs, r, at, e);
      var i := 0;
      while i < |r|
        invariant WalkedTo(cs, r, i, at, e)
      {
        var itemIndex := FirstItemIndex(r[i].items, itemId);
        if itemIndex.Some? {
          WalkHit(cs, r, i, at, e);
          var k := itemIndex.value;
          r := r[i := r[i].(items := r[i].items[k := r[i].items[k].(title := title)])];
          return;
        }
        WalkMiss(cs, r, i, at, e, UpdatedList(cs[i].children, at, e));
        var kids := UpdateItemTitleRecursive(itemId, title, r[i].children);
        r := r[i := r[i].(children := kids)];
        i := i + 1;
      }
      WalkEnds(cs, r, at, e);
    }

    /** `createNewFolder(with:)`. `folderId` is the new folder's fresh id. */
    method CreateNewFolder(canvas: Canvas, folderId: Id)
      modifies this
      ensures canvases == WithNewFolder(old(canvases), canvas.id, folderId,
                                        FolderName(FreeFolderNumber(FolderNames(old(canvases)))))
      ensures selectedCanvasId == old(selectedCanvasId)
    {
      var folderName := GenerateFolderName();
      var canvasIndex := RootIndex(canvases, canvas.id);
      if canvasIndex.None? {
        return;
      }
      var i := canvasIndex.value;
      ghost var before := canvases;
      var removedCanvas := canvases[i];
      canvases := canvases[..i] + canvases[i + 1..];
      var folder := MakeCanvas(folderId, folderName, isFolder := true);
      folder := folder.(children := [removedCanvas]);
      assert canvases[..i] == before[..i] && canvases[i..] == before[i + 1..];
      canvases := canvases[..i] + [folder] + canvases[i..];
    }

    /** `generateFolderName`: "Folder N" for the least N >= 1 that no
        folder in the tree is named. */
    method GenerateFolderName() returns (folderName: string)
      ensures folderName == FolderName(FreeFolderNumber(FolderNames(canvases)))
    {
      var folderNumber: nat := 1;
      folderName := FolderName(1);
      var existingNames := GetAllFolderNames();
      while folderName in existingNames
        invariant folderNumber >= 1 && folderName == FolderName(folderNumber)
        invariant NamesBelow(folderNumber) <= existingNames
        invariant FirstFreeFrom(existingNames, folderNumber) == FreeFolderNumber(existingNames)
        decreases |existingNames| - (folderNumber - 1)
      {
        NamesBelowBound(existingNames, folderNumber + 1);
        folderNumber := folderNumber + 1;
        folderName := FolderName(folderNumber);
      }
    }

    /** `getAllFolderNames` */
    method GetAllFolderNames() returns (names: set<string>)
      ensures names == FolderNames(canvases)
    {
      names := CollectNames(canvases);
    }

    /** `collectNames` inside `getAllFolderNames`. */
    method CollectNames(cs: seq<Canvas>) returns (names: set<string>)
      ensures names == FolderNames(cs)
      decreases cs
    {
      names := {};
      var i := 0;
      while i < |cs|
        invariant 0 <= i <= |cs|
        invariant names == FolderNames(cs[..i])
      {
        PreOrderAt(cs, i);
        FolderNamesOfConcat(PreOrder(cs[..i]), [cs[i]] + PreOrder(cs[i].children));
        FolderNamesOfConcat([cs[i]], PreOrder(cs[i].children));
        FolderNamesOfOne(cs[i]);
        if cs[i].isFolder {
          names := names + {cs[i].name};
        }
        var below := CollectNames(cs[i].children);
        names := names + below;
        i := i + 1;
      }
      assert cs[..i] == cs;
    }

    /** `addCanvasToExistingFolder(_:folder:)` */
    method AddCanvasToExistingFolder(canvas: Canvas, folder: Canvas)
      modifies this
      ensures canvases == AddedToFolder(old(canvases), canvas, folder.id)
      ensures selectedCanvasId == old(selectedCanvasId)
    {
      var _, rest := RemoveCanvas(canvas.id, canvases);
      canvases := rest;
      UpdateCanvas(folder.id, AppendChild(canvas));
    }

    /** `moveCanvasToRoot(_:)` */
    method MoveCanvasToRoot(canvas: Canvas)
      modifies this
      ensures canvases == MovedToRoot(old(canvases), canvas.id)
      ensures selectedCanvasId == old(selectedCanvasId)
    {
      var removed, rest := RemoveCanvas(canvas.id, canvases);
      if removed.Some? {
        canvases := rest + [removed.value];
      }
    }

    /** `removeCanvas(withId:from:)`: the node removed, and the array as
        the call leaves it. */
    method RemoveCanvas(id: Id, cs: seq<Canvas>) returns (removed: Option<Canvas>, rest: seq<Canvas>)
      ensures Removal(removed, rest) == RemovedFrom(cs, id)
      decreases cs
    {
      RemovalEnds(cs, id);
      var i := 0;
      while i < |cs|
        invariant RemovalWalked(cs, id, i)
      {
        if cs[i].id == id {
          RemovalHit(cs, id, i);
          return Some(cs[i]), cs[..i] + cs[i + 1..];
        }
        var inner, kids := RemoveCanvas(id, cs[i].children);
        if inner.Some? {
          RemovalInside(cs, id, i, inner, kids);
          return inner, cs[..i] + [cs[i].(children := kids)] + cs[i + 1..];
        }
        RemovalPast(cs, id, i);
        i := i + 1;
      }
      RemovalEnds(cs, id);
      return None, cs;
    }

    /** `isCanvasInFolder(_:)`: whether some node has the canvas as a child. */
    method IsCanvasInFolder(canvas: Canvas) returns (b: bool)
      ensures b <==> ParentOf(canvases, canvas.id).Some?
    {
      var parent := GetParentFolder(canvas);
      b := parent.Some?;
    }

    /** `getParentFolder(of:)` */
    method GetParentFolder(canvas: Canvas) returns (r: Option<Canvas>)
      ensures r == ParentOf(canvases, canvas.id)
    {
      r := FindParent(canvas.id, canvases);
    }

    /** `findParent(in:)` inside `getParentFolder(of:)`. */
    method FindParent(id: Id, cs: seq<Canvas>) returns (r: Option<Canvas>)
      ensures r == FirstWhere(PreOrder(cs), IsParentOf(id))
      decreases cs
    {
      var i := 0;
      while i < |cs|
        invariant 0 <= i <= |cs|
        invariant FirstWhere(PreOrder(cs[..i]), IsParentOf(id)).None?
      {
        FirstWhereStep(cs, i, IsParentOf(id));
        if id in IdsOf(cs[i].children) {
          return Some(cs[i]);
        }
        var found := FindParent(id, cs[i].children);
        if found.Some? {
          return found;
        }
        i := i + 1;
      }
      assert cs[..i] == cs;
      return None;
    }
  }
}
