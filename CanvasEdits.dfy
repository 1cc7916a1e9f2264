/** The edits DataStore.swift makes to one canvas: each `updateCanvas`
    closure, written out as a value of `CanvasEdit`, and the item-list and
    tag-list operations they are made of. */
module CanvasEdits {
  import opened Base
  import opened ItemModel
  import opened CanvasModel

  // ----- Item lists -----

  /** `items.firstIndex(where: { $0.id == id })` */
  function FirstItemIndex(items: seq<Item>, id: Id): (r: Option<nat>)
    ensures r.Some? ==> r.value < |items| && items[r.value].id == id &&
                        forall j :: 0 <= j < r.value ==> items[j].id != id
    ensures r.None? ==> forall j :: 0 <= j < |items| ==> items[j].id != id
  {
    if items == [] then None
    else if items[0].id == id then Some(0)
    else
      match FirstItemIndex(items[1..], id)
      case None => None
      case Some(k) => Some(k + 1)
  }

  /** Apply `ch` to the first item with the id, if there is one. */
  function ChangeFirstItem(items: seq<Item>, id: Id, ch: ItemChange): (r: seq<Item>)
    ensures |r| == |items|
    ensures FirstItemIndex(items, id).None? ==> r == items
    ensures FirstItemIndex(items, id).Some? ==>
              var k := FirstItemIndex(items, id).value;
              r[k] == ApplyChange(ch, items[k]) && forall j :: 0 <= j < |items| && j != k ==> r[j] == items[j]
  {
    match FirstItemIndex(items, id)
    case None => items
    case Some(k) => items[k := ApplyChange(ch, items[k])]
  }

  /** The predicate `removeAll` keeps: the item does not carry the id. */
  function OtherThan(id: Id): Item -> bool
  {
    (it: Item) => it.id != id
  }

  /** `items.removeAll { $0.id == id }` */
  function WithoutItem(items: seq<Item>, id: Id): seq<Item>
  {
    Filter(items, OtherThan(id))
  }

  /** Every item with the id goes, every other item stays, in order. */
  lemma WithoutItemSpec(items: seq<Item>, id: Id)
    ensures forall it: Item :: it in WithoutItem(items, id) ==> it.id != id
    ensures forall it: Item :: it.id != id ==> multiset(WithoutItem(items, id))[it] == multiset(items)[it]
    ensures (forall j :: 0 <= j < |items| ==> items[j].id != id) ==> WithoutItem(items, id) == items
  {
    forall it: Item | it.id != id
      ensures multiset(WithoutItem(items, id))[it] == multiset(items)[it]
    {
      FilterCount(items, OtherThan(id), it);
    }
  }

  predicate IsIncomplete(it: Item) { !it.isCompleted }

  predicate IsComplete(it: Item) { it.isCompleted }

  /** The order `items.sort { !$0.isCompleted && $1.isCompleted }` leaves:
      incomplete items, then completed ones, each group in its former order. */
  function TodoOrder(items: seq<Item>): seq<Item>
  {
    Filter(items, IsIncomplete) + Filter(items, IsComplete)
  }

  /** The todo order is a permutation that puts every incomplete item
      before every completed one. */
  lemma TodoOrderSpec(items: seq<Item>)
    ensures multiset(TodoOrder(items)) == multiset(items)
    ensures forall i, j :: 0 <= i < j < |TodoOrder(items)| ==>
              !(TodoOrder(items)[i].isCompleted && !TodoOrder(items)[j].isCompleted)
  {
    FilterSplit(items, IsIncomplete, IsComplete);
    CompletedLast(Filter(items, IsIncomplete), Filter(items, IsComplete));
  }

  /** Incomplete items followed by completed ones are in todo order. */
  lemma CompletedLast(a: seq<Item>, b: seq<Item>)
    requires forall i :: 0 <= i < |a| ==> IsIncomplete(a[i])
    requires forall i :: 0 <= i < |b| ==> IsComplete(b[i])
    ensures forall i, j :: 0 <= i < j < |a + b| ==> !((a + b)[i].isCompleted && !(a + b)[j].isCompleted)
  {
    forall i, j | 0 <= i < j < |a + b|
      ensures !((a + b)[i].isCompleted && !(a + b)[j].isCompleted)
    {
      if i < |a| {
        assert (a + b)[i] == a[i];
      } else {
        assert (a + b)[j] == b[j - |a|];
      }
    }
  }

  /** The body of `toggleItemCompletion`'s closure: flip the first item with
      the id and, on a todo canvas, restore the todo order. */
  function ToggledItems(items: seq<Item>, id: Id, isTodo: bool): seq<Item>
  {
    match FirstItemIndex(items, id)
    case None => items
    case Some(k) =>
      var flipped := items[k := ApplyChange(ToggleCompleted, items[k])];
      if isTodo then TodoOrder(flipped) else flipped
  }

  /** No item with the id: nothing changes. Otherwise, off a todo canvas,
      exactly the first matching item has its flag flipped, in place. */
  lemma ToggleOffTodo(items: seq<Item>, id: Id)
    ensures FirstItemIndex(items, id).None? ==> ToggledItems(items, id, false) == items
    ensures FirstItemIndex(items, id).None? ==> ToggledItems(items, id, true) == items
    ensures FirstItemIndex(items, id).Some? ==>
              var k := FirstItemIndex(items, id).value;
              var r := ToggledItems(items, id, false);
              |r| == |items| && r[k] == items[k].(isCompleted := !items[k].isCompleted) &&
              forall j :: 0 <= j < |items| && j != k ==> r[j] == items[j]
  {
  }

  /** On a todo canvas the result is the flipped list reordered: a
      permutation with every incomplete item ahead of every completed one. */
  lemma ToggleOnTodo(items: seq<Item>, id: Id, k: nat)
    requires FirstItemIndex(items, id) == Some(k)
    ensures var r := ToggledItems(items, id, true);
            && multiset(r) == multiset(items[k := items[k].(isCompleted := !items[k].isCompleted)])
            && forall i, j :: 0 <= i < j < |r| ==> !(r[i].isCompleted && !r[j].isCompleted)
  {
    TodoOrderSpec(items[k := ApplyChange(ToggleCompleted, items[k])]);
  }

  ghost predicate UniqueItemIds(items: seq<Item>)
  {
    forall i, j :: 0 <= i < j < |items| ==> items[i].id != items[j].id
  }

  /** Toggling the same item twice on a todo canvas gives back the same
      items with the same flags, though not necessarily in the same order
      (see `DoubleToggleReorders`). */
  lemma DoubleToggleSameItems(items: seq<Item>, id: Id)
    requires UniqueItemIds(items)
    ensures multiset(ToggledItems(ToggledItems(items, id, true), id, true)) == multiset(items)
  {
    match FirstItemIndex(items, id)
    case None =>
    case Some(k) =>
      var x := items[k];
      var x' := ApplyChange(ToggleCompleted, x);
      var once := ToggledItems(items, id, true);
      ToggledSwaps(items, id, k);
      var k2 := OnlyFlippedHasId(items, k, id, once);
      ToggledSwaps(once, id, k2);
      assert ApplyChange(ToggleCompleted, x') == x;
      SwapBack(multiset(items), x, x');
  }

  /** On a todo canvas, toggling swaps the matching item for its flipped
      copy in the multiset of items. */
  lemma ToggledSwaps(items: seq<Item>, id: Id, k: nat)
    requires FirstItemIndex(items, id) == Some(k)
    ensures multiset(ToggledItems(items, id, true)) ==
            multiset(items) - multiset{items[k]} + multiset{ApplyChange(ToggleCompleted, items[k])}
  {
    var flipped := items[k := ApplyChange(ToggleCompleted, items[k])];
    TodoOrderSpec(flipped);
    MultisetUpdate(items, k, ApplyChange(ToggleCompleted, items[k]));
  }

  lemma SwapBack<T>(m: multiset<T>, x: T, y: T)
    requires x in m
    ensures m - multiset{x} + multiset{y} - multiset{y} + multiset{x} == m
  {
  }

  lemma MultisetUpdate<T>(s: seq<T>, i: nat, v: T)
    requires i < |s|
    ensures multiset(s[i := v]) == multiset(s) - multiset{s[i]} + multiset{v}
  {
    assert s == s[..i] + [s[i]] + s[i + 1..];
    assert s[i := v] == s[..i] + [v] + s[i + 1..];
  }

  /** After the first toggle, the only item with the id is the flipped
      one, so the second toggle finds it. */
  lemma OnlyFlippedHasId(items: seq<Item>, k: nat, id: Id, once: seq<Item>) returns (k2: nat)
    requires UniqueItemIds(items) && k < |items| && items[k].id == id
    requires multiset(once) == multiset(items[k := ApplyChange(ToggleCompleted, items[k])])
    ensures FirstItemIndex(once, id) == Some(k2)
    ensures k2 < |once| && once[k2] == ApplyChange(ToggleCompleted, items[k])
  {
    var x' := ApplyChange(ToggleCompleted, items[k]);
    var flipped := items[k := x'];
    assert flipped[k] == x' && x' in multiset(once);
    var j :| 0 <= j < |once| && once[j] == x';
    assert FirstItemIndex(once, id).Some?;
    k2 := FirstItemIndex(once, id).value;
    assert once[k2] in multiset(flipped);
    forall m | 0 <= m < |flipped| && m != k ensures flipped[m].id != id {
      assert flipped[m] == items[m];
    }
    var m :| 0 <= m < |flipped| && flipped[m] == once[k2];
    assert m == k;
  }

  /** Order is not restored: with a, b open and c done, toggling a twice
      yields b, a, c. */
  lemma DoubleToggleReorders(a: Item, b: Item, c: Item)
    requires a.id != b.id && a.id != c.id && b.id != c.id
    requires !a.isCompleted && !b.isCompleted && c.isCompleted
    ensures ToggledItems(ToggledItems([a, b, c], a.id, true), a.id, true) == [b, a, c]
  {
    ToggleFirstOfThree(a, b, c);
    ToggleMiddleOfThree(b, a.(isCompleted := true), c);
  }

  lemma ToggleFirstOfThree(a: Item, b: Item, c: Item)
    requires !a.isCompleted && !b.isCompleted && c.isCompleted
    ensures ToggledItems([a, b, c], a.id, true) == [b, a.(isCompleted := true), c]
  {
    var a' := a.(isCompleted := true);
    assert FirstItemIndex([a, b, c], a.id) == Some(0);
    assert [a, b, c][0 := a'] == [a', b, c];
    FilterThree(a', b, c, IsIncomplete);
    FilterThree(a', b, c, IsComplete);
  }

  lemma ToggleMiddleOfThree(b: Item, x: Item, c: Item)
    requires b.id != x.id && !b.isCompleted && x.isCompleted && c.isCompleted
    ensures ToggledItems([b, x, c], x.id, true) == [b, x.(isCompleted := false), c]
  {
    var x' := x.(isCompleted := false);
    assert [b, x, c][1..] == [x, c];
    assert FirstItemIndex([b, x, c], x.id) == Some(1);
    assert [b, x, c][1 := x'] == [b, x', c];
    FilterThree(b, x', c, IsIncomplete);
    FilterThree(b, x', c, IsComplete);
  }

  lemma FilterThree<T(!new)>(x: T, y: T, z: T, keep: T -> bool)
    ensures Filter([x, y, z], keep) ==
            (if keep(x) then [x] else []) + (if keep(y) then [y] else []) + (if keep(z) then [z] else [])
  {
    assert [x, y, z] == [x] + [y] + [z];
    FilterConcat([x] + [y], [z], keep);
    FilterConcat([x], [y], keep);
    FilterOne(x, keep);
    FilterOne(y, keep);
    FilterOne(z, keep);
  }

  // ----- Tags -----

  /** `if !tags.contains(tag) { tags.append(tag) }` */
  function WithTag(tags: seq<string>, tag: string): (r: seq<string>)
    ensures tag in r
    ensures forall t :: t in r <==> t in tags || t == tag
  {
    if tag in tags then tags else tags + [tag]
  }

  /** Adding a tag keeps a duplicate-free list duplicate-free and only ever
      appends. */
  lemma WithTagKeepsDistinct(tags: seq<string>, tag: string)
    requires Distinct(tags)
    ensures Distinct(WithTag(tags, tag))
    ensures WithTag(tags, tag)[..|tags|] == tags
  {
    if tag !in tags {
      DistinctConcat(tags, [tag]);
      assert (tags + [tag])[..|tags|] == tags;
    }
  }

  /** The predicate `removeAll` keeps: the tag differs. */
  function Differs(tag: string): string -> bool
  {
    (t: string) => t != tag
  }

  /** `tags.removeAll { $0 == tag }` */
  function WithoutTag(tags: seq<string>, tag: string): seq<string>
  {
    Filter(tags, Differs(tag))
  }

  /** Removing a tag leaves no occurrence of it and keeps every other tag
      as often as before; a duplicate-free list stays duplicate-free. */
  lemma WithoutTagSpec(tags: seq<string>, tag: string)
    ensures tag !in WithoutTag(tags, tag)
    ensures forall t :: t != tag ==> multiset(WithoutTag(tags, tag))[t] == multiset(tags)[t]
    ensures Distinct(tags) ==> Distinct(WithoutTag(tags, tag))
  {
    forall t | t != tag
      ensures multiset(WithoutTag(tags, tag))[t] == multiset(tags)[t]
    {
      FilterCount(tags, Differs(tag), t);
    }
    if Distinct(tags) {
      FilterKeepsDistinct(tags, Differs(tag));
    }
  }

  /** Removing a tag keeps the order of the others: it works piece by
      piece on a split list, and a single other tag stays. */
  lemma WithoutTagKeepsOrder(a: seq<string>, b: seq<string>, tag: string)
    ensures WithoutTag(a + b, tag) == WithoutTag(a, tag) + WithoutTag(b, tag)
    ensures forall t :: WithoutTag([t], tag) == if t == tag then [] else [t]
  {
    FilterConcat(a, b, Differs(tag));
    forall t ensures WithoutTag([t], tag) == if t == tag then [] else [t] {
      FilterOne(t, Differs(tag));
    }
  }

  lemma {:induction false} FilterKeepsDistinct<T(!new)>(s: seq<T>, keep: T -> bool)
    requires Distinct(s)
    ensures Distinct(Filter(s, keep))
  {
    if s != [] {
      assert s == [s[0]] + s[1..];
      DistinctConcat([s[0]], s[1..]);
      FilterKeepsDistinct(s[1..], keep);
      if keep(s[0]) {
        DistinctConcat([s[0]], Filter(s[1..], keep));
      }
    }
  }

  // ----- Canvas edits -----

  /** The closures passed to `updateCanvas(withId:update:)`. */
  datatype CanvasEdit =
    | Rename(newName: string)                         // renameCanvas
    | SetKind(kind: Option<CanvasType>)               // updateCanvasType
    | AddTag(tag: string)                             // addTag
    | RemoveTag(tag: string)                          // removeTag
    | ToggleCompletion(itemId: Id)                    // toggleItemCompletion
    | UpdateNotes(itemId: Id, notes: Option<string>)  // updateItemNotes
    | InsertItem(item: Item)                          // addItem, moveItem
    | UpdateContent(itemId: Id, content: string)      // updateItem
    | RemoveItem(itemId: Id)                          // deleteItem, moveItem
    | AppendChild(child: Canvas)                      // addCanvasToExistingFolder
    | SetItemTitle(itemId: Id, title: Option<string>) // updateItemTitle
  {
    /** The edit leaves the canvas's children alone. */
    predicate IsLocal() { !AppendChild? }
  }

  /** Run one closure on one canvas. No edit changes the canvas's id; only
      `AppendChild` changes its children, by appending one. */
  function Apply(e: CanvasEdit, c: Canvas): (r: Canvas)
    ensures r.id == c.id
    ensures e.IsLocal() ==> r.children == c.children
    ensures e.AppendChild? ==> r.children == c.children + [e.child]
  {
    match e
    case Rename(n) => c.(name := n)
    case SetKind(k) => c.(kind := k)
    case AddTag(t) => c.(tags := WithTag(c.tags, t))
    case RemoveTag(t) => c.(tags := WithoutTag(c.tags, t))
    case ToggleCompletion(i) => c.(items := ToggledItems(c.items, i, c.kind == Some(Todo)))
    case UpdateNotes(i, n) => c.(items := ChangeFirstItem(c.items, i, SetNotes(n)))
    case InsertItem(it) => c.(items := [it] + c.items)
    case UpdateContent(i, s) => c.(items := ChangeFirstItem(c.items, i, SetContent(s)))
    case RemoveItem(i) => c.(items := WithoutItem(c.items, i))
    case AppendChild(child) => c.(children := c.children + [child])
    case SetItemTitle(i, t) => c.(items := ChangeFirstItem(c.items, i, SetTitle(t)))
  }

  /** What each closure sets: the name for `renameCanvas`, the type for
      `updateCanvasType`, the tags for `addTag` and `removeTag`, the items
      for the item edits; every other field is kept, and no edit makes a
      canvas a folder or stops it being one. */
  lemma ApplyEffects(e: CanvasEdit, c: Canvas)
    ensures Apply(e, c).isFolder == c.isFolder
    ensures Apply(e, c).name == (if e.Rename? then e.newName else c.name)
    ensures Apply(e, c).kind == (if e.SetKind? then e.kind else c.kind)
    ensures e.AddTag? ==> Apply(e, c).tags == WithTag(c.tags, e.tag)
    ensures e.RemoveTag? ==> Apply(e, c).tags == WithoutTag(c.tags, e.tag)
    ensures !e.AddTag? && !e.RemoveTag? ==> Apply(e, c).tags == c.tags
    ensures e.UpdateNotes? ==> Apply(e, c).items == ChangeFirstItem(c.items, e.itemId, SetNotes(e.notes))
    ensures e.SetItemTitle? ==> Apply(e, c).items == ChangeFirstItem(c.items, e.itemId, SetTitle(e.title))
    ensures e.Rename? || e.SetKind? || e.AddTag? || e.RemoveTag? || e.AppendChild? ==> Apply(e, c).items == c.items
  {
  }

  /** `updateItemNotes` and `updateItemTitle` set the field of the first
      item with the id and keep everything else of that item. */
  lemma NotesAndTitleSpec(c: Canvas, itemId: Id, notes: Option<string>, title: Option<string>, k: nat)
    requires FirstItemIndex(c.items, itemId) == Some(k)
    ensures var it := Apply(UpdateNotes(itemId, notes), c).items[k];
            && it.notes == notes && it.title == c.items[k].title
            && it.content == c.items[k].content && it.kind == c.items[k].kind
            && it.id == c.items[k].id && it.isCompleted == c.items[k].isCompleted
    ensures var it := Apply(SetItemTitle(itemId, title), c).items[k];
            && it.title == title && it.notes == c.items[k].notes
            && it.content == c.items[k].content && it.kind == c.items[k].kind
            && it.id == c.items[k].id && it.isCompleted == c.items[k].isCompleted
  {
  }

  /** The two item-list edits `moveItem` chains, one canvas at a time. */
  lemma ApplyItemEdits(c: Canvas, item: Item, id: Id)
    ensures Apply(InsertItem(item), c).items == [item] + c.items
    ensures Apply(RemoveItem(id), c).items == WithoutItem(c.items, id)
  {
  }

  /** The canvas with its children cut off: everything an edit of this
      node alone can change. */
  function Header(c: Canvas): Canvas
  {
    c.(children := [])
  }

  /** A local edit does not look at the children. */
  lemma ApplyHeader(e: CanvasEdit, c: Canvas)
    requires e.IsLocal()
    ensures Header(Apply(e, c)) == Apply(e, Header(c))
  {
  }

  /** `updateItem` rewrites the first item with the id: new content, type
      derived from it, id and creation date untouched. */
  lemma UpdateContentSpec(c: Canvas, itemId: Id, content: string, k: nat)
    requires FirstItemIndex(c.items, itemId) == Some(k)
    ensures var it := Apply(UpdateContent(itemId, content), c).items[k];
            && it.content == content && it.kind == Classify(content)
            && it.id == c.items[k].id && it.createdAt == c.items[k].createdAt
            && it.title == c.items[k].title && it.notes == c.items[k].notes
  {
  }
}
