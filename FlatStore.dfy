/** The flat predecessor of the store, MBDump/Models.swift: a list of
    root canvases with items and no nesting, and its `DataStore`. Every
    canvas lookup there is `firstIndex(where:)` on the root list. */
module FlatStore {
  import opened Base
  import ItemModel

  /** `Item` of MBDump/Models.swift: no title, completion or notes. The
      defaulted `UUID()` and `Date()` are given by the caller. */
  datatype Item = Item(id: Id, content: string, kind: ItemModel.ItemType, createdAt: Date)

  /** `Item.displayContent`, the same rule as the nested model's. */
  function DisplayContent(item: Item, hostOf: string -> Option<string>): (r: string)
    ensures item.kind != ItemModel.Link ==> r == item.content
    ensures item.kind == ItemModel.Link ==> r == hostOf(item.content).GetOr(item.content)
  {
    ItemModel.DisplayText(item.kind, item.content, hostOf)
  }

  /** `Canvas` of MBDump/Models.swift. */
  datatype Canvas = Canvas(id: Id, name: string, items: seq<Item>)

  /** `Canvas(name:)`: a new canvas starts empty. */
  function NewCanvas(id: Id, name: string): (r: Canvas)
    ensures r.id == id && r.name == name && r.items == []
  {
    Canvas(id, name, [])
  }

  /** `canvases.firstIndex(where: { $0.id == target })`. The target is
      optional, as in `addItem` and `selectedCanvas`: no canvas matches
      `nil`. */
  function FirstIndex(cs: seq<Canvas>, target: Option<Id>): (r: Option<nat>)
    ensures r.Some? ==> r.value < |cs| && Some(cs[r.value].id) == target
    ensures r.Some? ==> forall j :: 0 <= j < r.value ==> Some(cs[j].id) != target
    ensures r.None? <==> forall j :: 0 <= j < |cs| ==> Some(cs[j].id) != target
  {
    if cs == [] then None
    else if Some(cs[0].id) == target then Some(0)
    else
      match FirstIndex(cs[1..], target)
      case None => None
      case Some(k) => Some(k + 1)
  }

  function OtherThan(id: Id): Canvas -> bool
  {
    (c: Canvas) => c.id != id
  }

  function ItemOtherThan(id: Id): Item -> bool
  {
    (it: Item) => it.id != id
  }

  // ----- What each operation leaves -----

  /** `canvases[index].name = newName` at the first root canvas with the id. */
  function Renamed(cs: seq<Canvas>, id: Id, newName: string): (r: seq<Canvas>)
    ensures |r| == |cs|
    ensures FirstIndex(cs, Some(id)).None? ==> r == cs
    ensures forall j :: 0 <= j < |cs| ==>
              r[j].id == cs[j].id && r[j].items == cs[j].items
              && r[j].name == (if FirstIndex(cs, Some(id)) == Some(j) then newName else cs[j].name)
  {
    match FirstIndex(cs, Some(id))
    case None => cs
    case Some(i) => cs[i := cs[i].(name := newName)]
  }

  /** Insert in front of the items of the first root canvas with the
      target id, if there is one. */
  function Inserted(cs: seq<Canvas>, item: Item, target: Option<Id>): (r: seq<Canvas>)
    ensures |r| == |cs|
    ensures FirstIndex(cs, target).None? ==> r == cs
    ensures forall j :: 0 <= j < |cs| ==>
              r[j].id == cs[j].id && r[j].name == cs[j].name
              && r[j].items == (if FirstIndex(cs, target) == Some(j) then [item] + cs[j].items else cs[j].items)
  {
    match FirstIndex(cs, target)
    case None => cs
    case Some(i) => cs[i := cs[i].(items := [item] + cs[i].items)]
  }

  /** `items.removeAll { $0.id == itemId }` in the first root canvas with
      the canvas id, if there is one. */
  function ItemRemoved(cs: seq<Canvas>, itemId: Id, canvasId: Id): (r: seq<Canvas>)
    ensures |r| == |cs|
    ensures FirstIndex(cs, Some(canvasId)).None? ==> r == cs
    ensures forall j :: 0 <= j < |cs| ==>
              r[j].id == cs[j].id && r[j].name == cs[j].name
              && r[j].items == (if FirstIndex(cs, Some(canvasId)) == Some(j)
                                then Filter(cs[j].items, ItemOtherThan(itemId)) else cs[j].items)
  {
    match FirstIndex(cs, Some(canvasId))
    case None => cs
    case Some(i) => cs[i := cs[i].(items := Filter(cs[i].items, ItemOtherThan(itemId)))]
  }

  /** `moveItem`: nothing unless both canvases are at root; then the
      removal from the source, followed by the insertion into the target. */
  function Moved(cs: seq<Canvas>, item: Item, sourceId: Id, targetId: Id): (r: seq<Canvas>)
    ensures |r| == |cs|
    ensures FirstIndex(cs, Some(sourceId)).None? || FirstIndex(cs, Some(targetId)).None? ==> r == cs
  {
    if FirstIndex(cs, Some(sourceId)).None? || FirstIndex(cs, Some(targetId)).None? then cs
    else Inserted(ItemRemoved(cs, item.id, sourceId), item, Some(targetId))
  }

  /** Removing an item does not move or rename a canvas, so the lookups of
      the second half of `moveItem` find the canvases the first half saw. */
  lemma ItemRemovedKeepsIndex(cs: seq<Canvas>, itemId: Id, canvasId: Id, target: Option<Id>)
    ensures FirstIndex(ItemRemoved(cs, itemId, canvasId), target) == FirstIndex(cs, target)
  {
    var r := ItemRemoved(cs, itemId, canvasId);
    match FirstIndex(cs, target)
    case None =>
      assert forall j :: 0 <= j < |r| ==> Some(r[j].id) != target;
    case Some(i) =>
      assert Some(r[i].id) == target;
      assert forall j :: 0 <= j < i ==> Some(r[j].id) != target;
      FirstIndexUnique(r, target, i);
  }

  /** The first index is the one with a match and none before it. */
  lemma {:induction false} FirstIndexUnique(cs: seq<Canvas>, target: Option<Id>, i: nat)
    requires i < |cs| && Some(cs[i].id) == target
    requires forall j :: 0 <= j < i ==> Some(cs[j].id) != target
    ensures FirstIndex(cs, target) == Some(i)
  {
    if i > 0 {
      FirstIndexUnique(cs[1..], target, i - 1);
    }
  }

  /** With both canvases at root and distinct, `moveItem` leaves no item
      with the id in the source, puts the item in front of the target's
      items, and leaves every other canvas as it was. */
  lemma MovedBetween(cs: seq<Canvas>, item: Item, s: nat, t: nat)
    requires s < |cs| && t < |cs| && s != t
    requires FirstIndex(cs, Some(cs[s].id)) == Some(s) && FirstIndex(cs, Some(cs[t].id)) == Some(t)
    ensures var r := Moved(cs, item, cs[s].id, cs[t].id);
            && (forall it :: it in r[s].items ==> it.id != item.id)
            && (forall it :: it in r[s].items <==> it in cs[s].items && it.id != item.id)
            && r[s].items == Filter(cs[s].items, ItemOtherThan(item.id))
            && r[t].items == [item] + cs[t].items
            && (forall j :: 0 <= j < |cs| && j != s && j != t ==> r[j] == cs[j])
            && (forall j :: 0 <= j < |cs| ==> r[j].id == cs[j].id && r[j].name == cs[j].name)
  {
    var mid := ItemRemoved(cs, item.id, cs[s].id);
    ItemRemovedKeepsIndex(cs, item.id, cs[s].id, Some(cs[t].id));
    var r := Inserted(mid, item, Some(cs[t].id));
    assert Moved(cs, item, cs[s].id, cs[t].id) == r;
    assert mid[s].items == Filter(cs[s].items, ItemOtherThan(item.id));
    assert r[s].items == mid[s].items;
    assert r[t].items == [item] + mid[t].items && mid[t].items == cs[t].items;
    forall j | 0 <= j < |cs| && j != s && j != t ensures r[j] == cs[j] {
      assert r[j].items == mid[j].items == cs[j].items;
    }
  }

  /** Moving an item within one canvas brings it to the front and drops
      every other item with its id. */
  lemma MovedWithin(cs: seq<Canvas>, item: Item, s: nat)
    requires s < |cs| && FirstIndex(cs, Some(cs[s].id)) == Some(s)
    ensures var r := Moved(cs, item, cs[s].id, cs[s].id);
            && r[s].items == [item] + Filter(cs[s].items, ItemOtherThan(item.id))
            && (forall j :: 0 <= j < |cs| && j != s ==> r[j] == cs[j])
  {
    ItemRemovedKeepsIndex(cs, item.id, cs[s].id, Some(cs[s].id));
  }

  /** `deleteCanvas`: every root canvas with the id goes, the others stay in order. */
  function Deleted(cs: seq<Canvas>, id: Id): (r: seq<Canvas>)
    ensures forall c :: c in r <==> c in cs && c.id != id
    ensures FirstIndex(r, Some(id)).None?
  {
    Filter(cs, OtherThan(id))
  }

  /** Deleting a canvas that is not at root changes nothing. */
  lemma DeletedAbsent(cs: seq<Canvas>, id: Id)
    requires FirstIndex(cs, Some(id)).None?
    ensures Deleted(cs, id) == cs
  {
    assert forall c :: c in cs ==> OtherThan(id)(c);
  }

  class DataStore {
    var canvases: seq<Canvas>
    var selectedCanvasId: Option<Id>

    /** `init()`. `loaded` is what `load()` decoded (empty when the file
        was missing or unreadable); `load()` selects its first canvas.
        With nothing loaded, one canvas named "Inbox", with the given id,
        is created and selected. */
    constructor (loaded: seq<Canvas>, inboxId: Id)
      ensures loaded != [] ==> canvases == loaded && selectedCanvasId == Some(loaded[0].id)
      ensures loaded == [] ==> canvases == [NewCanvas(inboxId, "Inbox")] && selectedCanvasId == Some(inboxId)
    {
      canvases := loaded;
      selectedCanvasId := if loaded == [] then None else Some(loaded[0].id);
      new;
      if canvases == [] {
        var inbox := NewCanvas(inboxId, "Inbox");
        canvases := canvases + [inbox];
        selectedCanvasId := Some(inbox.id);
      }
    }

    /** `selectedCanvas`: the first root canvas with the selected id. */
    function SelectedCanvas(): (r: Option<Canvas>)
      reads this
      ensures r.Some? ==> r.value in canvases && Some(r.value.id) == selectedCanvasId
      ensures r.None? <==> forall c :: c in canvases ==> Some(c.id) != selectedCanvasId
      ensures r.Some? ==> exists i :: 0 <= i < |canvases| && canvases[i] == r.value
                           && forall j :: 0 <= j < i ==> Some(canvases[j].id) != selectedCanvasId
    {
      match FirstIndex(canvases, selectedCanvasId)
      case None => None
      case Some(i) => Some(canvases[i])
    }

    /** `addCanvas(name:)`, up to the deferred selection: the new canvas
        goes at the end; its id is returned for `RunDeferredSelection`. */
    method AddCanvas(name: string, newId: Id) returns (pending: Id)
      modifies this
      ensures canvases == old(canvases) + [NewCanvas(newId, name)]
      ensures selectedCanvasId == old(selectedCanvasId)
      ensures pending == newId
    {
      var canvas := NewCanvas(newId, name);
      canvases := canvases + [canvas];
      pending := canvas.id;
    }

    /** The block `addCanvas` schedules on the main queue. */
    method RunDeferredSelection(id: Id)
      modifies this
      ensures selectedCanvasId == Some(id) && canvases == old(canvases)
    {
      selectedCanvasId := Some(id);
    }

    /** `deleteCanvas(_:)`: a deleted selection falls back to the first
        remaining canvas, or to none. */
    method DeleteCanvas(canvas: Canvas)
      modifies this
      ensures canvases == Deleted(old(canvases), canvas.id)
      ensures old(selectedCanvasId) == Some(canvas.id) ==>
                selectedCanvasId == if canvases == [] then None else Some(canvases[0].id)
      ensures old(selectedCanvasId) != Some(canvas.id) ==> selectedCanvasId == old(selectedCanvasId)
    {
      canvases := Filter(canvases, OtherThan(canvas.id));
      if selectedCanvasId == Some(canvas.id) {
        selectedCanvasId := if canvases == [] then None else Some(canvases[0].id);
      }
    }

    /** `renameCanvas(_:to:)` */
    method RenameCanvas(canvas: Canvas, newName: string)
      modifies this
      ensures canvases == Renamed(old(canvases), canvas.id, newName)
      ensures selectedCanvasId == old(selectedCanvasId)
    {
      var index := FirstIndex(canvases, Some(canvas.id));
      if index.Some? {
        var i := index.value;
        canvases := canvases[i := canvases[i].(name := newName)];
      }
    }

    /** `addItem(_:to:)`: the target is `canvasId ?? canvases.first?.id`. */
    method AddItem(item: Item, canvasId: Option<Id>)
      modifies this
      ensures canvases == Inserted(old(canvases), item,
                                   if canvasId.Some? then canvasId
                                   else if old(canvases) == [] then None else Some(old(canvases)[0].id))
      ensures selectedCanvasId == old(selectedCanvasId)
    {
      var targetId := if canvasId.Some? then canvasId else if canvases == [] then None else Some(canvases[0].id);
      var index := FirstIndex(canvases, targetId);
      if index.Some? {
        var i := index.value;
        canvases := canvases[i := canvases[i].(items := [item] + canvases[i].items)];
      }
    }

    /** `deleteItem(_:from:)` */
    method DeleteItem(item: Item, canvas: Canvas)
      modifies this
      ensures canvases == ItemRemoved(old(canvases), item.id, canvas.id)
      ensures selectedCanvasId == old(selectedCanvasId)
    {
      var canvasIndex := FirstIndex(canvases, Some(canvas.id));
      if canvasIndex.Some? {
        var i := canvasIndex.value;
        canvases := canvases[i := canvases[i].(items := Filter(canvases[i].items, ItemOtherThan(item.id)))];
      }
    }

    /** `moveItem(_:from:to:)`: both indices are looked up first, then the
        item leaves the source and enters the target. */
    method MoveItem(item: Item, sourceCanvas: Canvas, targetCanvas: Canvas)
      modifies this
      ensures canvases == Moved(old(canvases), item, sourceCanvas.id, targetCanvas.id)
      ensures selectedCanvasId == old(selectedCanvasId)
    {
      var sourceIndex := FirstIndex(canvases, Some(sourceCanvas.id));
      var targetIndex := FirstIndex(canvases, Some(targetCanvas.id));
      if sourceIndex.Some? && targetIndex.Some? {
        var s, t := sourceIndex.value, targetIndex.value;
        ghost var before := canvases;
        canvases := canvases[s := canvases[s].(items := Filter(canvases[s].items, ItemOtherThan(item.id)))];
        assert canvases == ItemRemoved(before, item.id, sourceCanvas.id);
        ItemRemovedKeepsIndex(before, item.id, sourceCanvas.id, Some(targetCanvas.id));
        canvases := canvases[t := canvases[t].(items := [item] + canvases[t].items)];
      }
    }
  }
}
