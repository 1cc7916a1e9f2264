/** What the recursive helpers of MBDump/Models/DataStore.swift compute,
    as functions over the root list of canvases, and what can be proved
    about them: which nodes a search finds, which nodes an update touches,
    and that re-parenting neither creates nor loses nodes (or exactly how
    it does). */
module CanvasTree {
  import opened Base
  import opened ItemModel
  import opened CanvasModel
  import opened CanvasEdits

  // ----- Identifiers across the tree -----

  function IdsOf(nodes: seq<Canvas>): (r: seq<Id>)
    ensures |r| == |nodes| && forall k :: 0 <= k < |nodes| ==> r[k] == nodes[k].id
  {
    seq(|nodes|, k requires 0 <= k < |nodes| => nodes[k].id)
  }

  lemma IdsOfConcat(a: seq<Canvas>, b: seq<Canvas>)
    ensures IdsOf(a + b) == IdsOf(a) + IdsOf(b)
  {
  }

  /** The ids of every node of the forest, in pre-order. */
  ghost function TreeIds(cs: seq<Canvas>): seq<Id>
  {
    IdsOf(PreOrder(cs))
  }

  lemma TreeIdsCons(cs: seq<Canvas>)
    requires cs != []
    ensures TreeIds(cs) == [cs[0].id] + TreeIds(cs[0].children) + TreeIds(cs[1..])
  {
    IdsOfConcat([cs[0]] + PreOrder(cs[0].children), PreOrder(cs[1..]));
    IdsOfConcat([cs[0]], PreOrder(cs[0].children));
  }

  lemma TreeIdsConcat(a: seq<Canvas>, b: seq<Canvas>)
    ensures TreeIds(a + b) == TreeIds(a) + TreeIds(b)
  {
    PreOrderConcat(a, b);
    IdsOfConcat(PreOrder(a), PreOrder(b));
  }

  lemma TreeIdsOne(c: Canvas)
    ensures TreeIds([c]) == [c.id] + TreeIds(c.children)
  {
    TreeIdsCons([c]);
    assert [c][1..] == [];
  }

  /** The pre-order of a forest split at its i-th root: what a loop over
      the roots has covered, that root with its subtree, and what is left. */
  lemma PreOrderAt(cs: seq<Canvas>, i: nat)
    requires i < |cs|
    ensures PreOrder(cs[..i + 1]) == PreOrder(cs[..i]) + ([cs[i]] + PreOrder(cs[i].children))
    ensures PreOrder(cs[i..]) == [cs[i]] + PreOrder(cs[i].children) + PreOrder(cs[i + 1..])
  {
    assert cs[..i + 1] == cs[..i] + [cs[i]];
    PreOrderConcat(cs[..i], [cs[i]]);
    PreOrderOne(cs[i]);
    assert cs[i..][0] == cs[i] && cs[i..][1..] == cs[i + 1..];
  }

  /** The store's invariant: canvas ids are unique across the whole tree.
      The store relies on it but does not enforce it. */
  ghost predicate UniqueIds(cs: seq<Canvas>)
  {
    Distinct(TreeIds(cs))
  }

  /** Unique ids in a forest mean unique ids in the first tree's children
      and in the remaining trees, none shared between them, and the first
      root's id nowhere else. */
  lemma UniqueIdsCons(cs: seq<Canvas>)
    requires cs != [] && UniqueIds(cs)
    ensures UniqueIds(cs[0].children) && UniqueIds(cs[1..])
    ensures cs[0].id !in TreeIds(cs[0].children) && cs[0].id !in TreeIds(cs[1..])
    ensures Disjoint(TreeIds(cs[0].children), TreeIds(cs[1..]))
  {
    TreeIdsCons(cs);
    var a, b, c := [cs[0].id], TreeIds(cs[0].children), TreeIds(cs[1..]);
    assert a + b + c == a + (b + c);
    DistinctConcat(a, b + c);
    DistinctConcat(b, c);
    DisjointMembers(a, b + c, cs[0].id);
  }

  // ----- Update the node that matches, anywhere in the tree -----

  /** The match of `updateCanvasRecursive`: the canvas has the id. */
  function HasId(id: Id): Canvas -> bool
  {
    (c: Canvas) => c.id == id
  }

  /** The match of `updateItemTitleRecursive`: the canvas holds an item
      with the id. */
  function HoldsItem(itemId: Id): Canvas -> bool
  {
    (c: Canvas) => FirstItemIndex(c.items, itemId).Some?
  }

  /** `updateCanvasRecursive(id:canvases:update:)` with `at == HasId(id)`,
      and `updateItemTitleRecursive` with `at == HoldsItem(itemId)`: both
      have this shape. At each level the first matching sibling is edited
      and the rest of that level left alone; a sibling that does not match
      has its children searched, and the loop then goes on with the next
      sibling whatever that search found. */
  function UpdatedList(cs: seq<Canvas>, at: Canvas -> bool, e: CanvasEdit): (r: seq<Canvas>)
    ensures |r| == |cs|
  {
    if cs == [] then []
    else if at(cs[0]) then [Apply(e, cs[0])] + cs[1..]
    else [cs[0].(children := UpdatedList(cs[0].children, at, e))] + UpdatedList(cs[1..], at, e)
  }

  /** One step of the traversal, at the i-th sibling. */
  lemma UpdatedListAt(cs: seq<Canvas>, i: nat, at: Canvas -> bool, e: CanvasEdit)
    requires i < |cs|
    ensures UpdatedList(cs[i..], at, e)
            == if at(cs[i]) then [Apply(e, cs[i])] + cs[i + 1..]
               else [cs[i].(children := UpdatedList(cs[i].children, at, e))] + UpdatedList(cs[i + 1..], at, e)
  {
    assert cs[i..][0] == cs[i] && cs[i..][1..] == cs[i + 1..];
  }

  /** The state of a loop that has walked the first i siblings of `cs`
      without a match: `r` holds them as the traversal leaves them, the
      rest untouched. */
  ghost predicate WalkedTo(cs: seq<Canvas>, r: seq<Canvas>, i: nat, at: Canvas -> bool, e: CanvasEdit)
  {
    && i <= |cs| && |r| == |cs|
    && r[i..] == cs[i..]
    && r[..i] + UpdatedList(cs[i..], at, e) == UpdatedList(cs, at, e)
  }

  /** Replacing the i-th element of `r`, which agrees with `cs` from i on,
      leaves the walked prefix, the new element and the rest of `cs`. */
  lemma SpliceAt<T>(r: seq<T>, cs: seq<T>, i: nat, v: T)
    requires |r| == |cs| && i < |cs| && r[i..] == cs[i..]
    ensures r[i] == cs[i]
    ensures r[i := v] == r[..i] + ([v] + cs[i + 1..])
    ensures r[i := v][..i + 1] == r[..i] + [v] && r[i := v][i + 1..] == cs[i + 1..]
  {
    assert r[i] == r[i..][0] && cs[i] == cs[i..][0];
    assert r[i + 1..] == r[i..][1..] && cs[i + 1..] == cs[i..][1..];
    UpdateSplit(r, i, v);
  }

  /** A match at sibling i: editing it in place finishes the traversal. */
  lemma WalkHit(cs: seq<Canvas>, r: seq<Canvas>, i: nat, at: Canvas -> bool, e: CanvasEdit)
    requires WalkedTo(cs, r, i, at, e) && i < |cs| && at(cs[i])
    ensures r[i] == cs[i]
    ensures r[i := Apply(e, r[i])] == UpdatedList(cs, at, e)
  {
    UpdatedListAt(cs, i, at, e);
    SpliceAt(r, cs, i, Apply(e, cs[i]));
  }

  /** One step of a walk over a generic list: if the walked prefix, then
      `v`, then `rest` make `total`, so do the prefix extended by `v` and
      `rest`. */
  lemma StepOn<T>(r: seq<T>, cs: seq<T>, i: nat, v: T, rest: seq<T>, total: seq<T>)
    requires |r| == |cs| && i < |cs| && r[i..] == cs[i..]
    requires r[..i] + ([v] + rest) == total
    ensures r[i] == cs[i]
    ensures r[i := v][..i + 1] + rest == total && r[i := v][i + 1..] == cs[i + 1..]
  {
    SpliceAt(r, cs, i, v);
    assert (r[..i] + [v]) + rest == r[..i] + ([v] + rest);
  }

  /** No match at sibling i: its children, updated, go in its place, and
      the walk moves on. */
  lemma WalkMiss(cs: seq<Canvas>, r: seq<Canvas>, i: nat, at: Canvas -> bool, e: CanvasEdit, kids: seq<Canvas>)
    requires WalkedTo(cs, r, i, at, e) && i < |cs| && !at(cs[i])
    requires kids == UpdatedList(cs[i].children, at, e)
    ensures r[i] == cs[i]
    ensures WalkedTo(cs, r[i := r[i].(children := kids)], i + 1, at, e)
  {
    var v := cs[i].(children := kids);
    UpdatedListAt(cs, i, at, e);
    assert UpdatedList(cs[i..], at, e) == [v] + UpdatedList(cs[i + 1..], at, e);
    StepOn(r, cs, i, v, UpdatedList(cs[i + 1..], at, e), UpdatedList(cs, at, e));
    assert r[i := r[i].(children := kids)] == r[i := v];
  }

  /** The walk starts with nothing walked and, once past every sibling,
      holds the traversal's result. */
  lemma WalkEnds(cs: seq<Canvas>, r: seq<Canvas>, at: Canvas -> bool, e: CanvasEdit)
    ensures WalkedTo(cs, cs, 0, at, e)
    ensures WalkedTo(cs, r, |cs|, at, e) ==> r == UpdatedList(cs, at, e)
  {
    assert cs[..0] == [] && cs[0..] == cs;
    if WalkedTo(cs, r, |cs|, at, e) {
      assert r[..|cs|] == r && cs[|cs|..] == [];
    }
  }

  /** Reference semantics: apply the edit to every node that matches
      (below such a node first, then the node itself). */
  function EditWhere(cs: seq<Canvas>, at: Canvas -> bool, e: CanvasEdit): (r: seq<Canvas>)
    ensures |r| == |cs|
  {
    if cs == [] then []
    else
      var c := cs[0].(children := EditWhere(cs[0].children, at, e));
      [if at(cs[0]) then Apply(e, c) else c] + EditWhere(cs[1..], at, e)
  }

  /** No node of the forest matches. */
  ghost predicate NoneMatch(cs: seq<Canvas>, at: Canvas -> bool)
  {
    forall c :: c in PreOrder(cs) ==> !at(c)
  }

  /** At most one node of the forest matches. */
  ghost predicate AtMostOne(cs: seq<Canvas>, at: Canvas -> bool)
  {
    |Filter(PreOrder(cs), at)| <= 1
  }

  lemma NoneMatchCons(cs: seq<Canvas>, at: Canvas -> bool)
    requires cs != []
    ensures NoneMatch(cs, at) <==> !at(cs[0]) && NoneMatch(cs[0].children, at) && NoneMatch(cs[1..], at)
  {
  }

  /** An id nowhere in the tree is matched by no node. */
  lemma AbsentIdNoneMatch(cs: seq<Canvas>, id: Id)
    requires id !in TreeIds(cs)
    ensures NoneMatch(cs, HasId(id))
  {
    forall c | c in PreOrder(cs) ensures c.id != id {
      var k :| 0 <= k < |PreOrder(cs)| && PreOrder(cs)[k] == c;
      assert TreeIds(cs)[k] == c.id;
    }
  }

  /** A match in the first tree rules out a match anywhere else; no match
      there leaves at most one in the children and the remaining trees
      together. */
  lemma AtMostOneCons(cs: seq<Canvas>, at: Canvas -> bool)
    requires cs != [] && AtMostOne(cs, at)
    ensures AtMostOne(cs[0].children, at) && AtMostOne(cs[1..], at)
    ensures at(cs[0]) ==> NoneMatch(cs[0].children, at) && NoneMatch(cs[1..], at)
    ensures NoneMatch(cs[0].children, at) || NoneMatch(cs[1..], at)
  {
    var a, b := PreOrder(cs[0].children), PreOrder(cs[1..]);
    assert PreOrder(cs) == [cs[0]] + (a + b);
    FilterConcat([cs[0]], a + b, at);
    FilterConcat(a, b, at);
    assert Filter([cs[0]], at) == (if at(cs[0]) then [cs[0]] else []);
    if Filter(a, at) == [] {
      assert NoneMatch(cs[0].children, at);
    }
    if Filter(b, at) == [] {
      assert NoneMatch(cs[1..], at);
    }
  }

  /** With unique ids, at most one node has a given id. */
  lemma {:induction false} UniqueAtMostOne(nodes: seq<Canvas>, id: Id)
    requires Distinct(IdsOf(nodes))
    ensures |Filter(nodes, HasId(id))| <= 1
  {
    if nodes != [] {
      assert nodes == [nodes[0]] + nodes[1..];
      assert IdsOf(nodes) == [nodes[0].id] + IdsOf(nodes[1..]);
      DistinctConcat([nodes[0].id], IdsOf(nodes[1..]));
      UniqueAtMostOne(nodes[1..], id);
      if nodes[0].id == id {
        DisjointMembers([nodes[0].id], IdsOf(nodes[1..]), id);
        forall x | x in nodes[1..] ensures x.id != id {
          var k :| 0 <= k < |nodes[1..]| && nodes[1..][k] == x;
          assert IdsOf(nodes[1..])[k] == x.id;
        }
        FilterNone(nodes[1..], HasId(id));
      }
    }
  }

  lemma UniqueIdsAtMostOne(cs: seq<Canvas>, id: Id)
    requires UniqueIds(cs)
    ensures AtMostOne(cs, HasId(id))
  {
    UniqueAtMostOne(PreOrder(cs), id);
  }

  /** When nothing matches, the update is a no-op. */
  lemma {:induction false} UpdatedAbsent(cs: seq<Canvas>, at: Canvas -> bool, e: CanvasEdit)
    requires NoneMatch(cs, at)
    ensures UpdatedList(cs, at, e) == cs
  {
    if cs != [] {
      NoneMatchCons(cs, at);
      UpdatedAbsent(cs[0].children, at, e);
      UpdatedAbsent(cs[1..], at, e);
    }
  }

  lemma {:induction false} EverywhereAbsent(cs: seq<Canvas>, at: Canvas -> bool, e: CanvasEdit)
    requires NoneMatch(cs, at)
    ensures EditWhere(cs, at, e) == cs
  {
    if cs != [] {
      NoneMatchCons(cs, at);
      EverywhereAbsent(cs[0].children, at, e);
      EverywhereAbsent(cs[1..], at, e);
    }
  }

  /** When at most one node matches, the source's traversal and the
      reference semantics agree: the early return loses nothing. */
  lemma {:induction false} UpdatedIsEverywhere(cs: seq<Canvas>, at: Canvas -> bool, e: CanvasEdit)
    requires AtMostOne(cs, at)
    ensures UpdatedList(cs, at, e) == EditWhere(cs, at, e)
  {
    if cs != [] {
      AtMostOneCons(cs, at);
      if at(cs[0]) {
        EverywhereAbsent(cs[0].children, at, e);
        EverywhereAbsent(cs[1..], at, e);
        assert cs[0].(children := cs[0].children) == cs[0];
      } else {
        UpdatedIsEverywhere(cs[0].children, at, e);
        UpdatedIsEverywhere(cs[1..], at, e);
      }
    }
  }

  /** Without unique ids the early return stops only the loop it sits in:
      a match inside the first tree's children does not end the walk over
      its siblings, so a later sibling with the same id is edited too. */
  lemma UpdatedRepeatsOnDuplicates(p: Canvas, x: Canvas, y: Canvas, e: CanvasEdit)
    requires p.id != x.id && y.id == x.id && p.children == [x]
    ensures UpdatedList([p, y], HasId(x.id), e) == [p.(children := [Apply(e, x)]), Apply(e, y)]
  {
    assert [p, y][1..] == [y] && [x][1..] == [] && [y][1..] == [];
    assert UpdatedList([x], HasId(x.id), e) == [Apply(e, x)];
    assert UpdatedList([y], HasId(x.id), e) == [Apply(e, y)];
    assert UpdatedList([p, y], HasId(x.id), e)
        == [p.(children := UpdatedList(p.children, HasId(x.id), e))] + UpdatedList([y], HasId(x.id), e);
  }

  /** An id is in the tree exactly when the search finds a node with it. */
  lemma FoundIffPresent(cs: seq<Canvas>, id: Id)
    ensures FindAmong(cs, id).Some? <==> id in TreeIds(cs)
  {
    if id in TreeIds(cs) {
      var k :| 0 <= k < |TreeIds(cs)| && TreeIds(cs)[k] == id;
      assert PreOrder(cs)[k].id == id;
    }
  }

  /** With unique ids, after updating the node with an id, the search for
      that id finds the old node with the edit applied, whatever the edit. */
  lemma {:induction false} UpdatedFound(cs: seq<Canvas>, id: Id, e: CanvasEdit)
    requires UniqueIds(cs) && id in TreeIds(cs)
    ensures FindAmong(cs, id).Some?
    ensures FindAmong(UpdatedList(cs, HasId(id), e), id) == Some(Apply(e, FindAmong(cs, id).value))
  {
    FoundIffPresent(cs, id);
    var r := UpdatedList(cs, HasId(id), e);
    assert FindAmong(r, id) == if r[0].Find(id).Some? then r[0].Find(id) else FindAmong(r[1..], id);
    if cs[0].id != id {
      TreeIdsCons(cs);
      UniqueIdsCons(cs);
      assert r[1..] == UpdatedList(cs[1..], HasId(id), e);
      if id in TreeIds(cs[0].children) {
        UpdatedFound(cs[0].children, id, e);
      } else {
        FoundIffPresent(cs[0].children, id);
        AbsentIdNoneMatch(cs[0].children, id);
        UpdatedAbsent(cs[0].children, HasId(id), e);
        UpdatedFound(cs[1..], id, e);
      }
    }
  }

  /** With unique ids, a local edit of the node with one id leaves the
      node with any other id findable, with its own fields as they were
      (its subtree may hold the edited node). */
  lemma {:induction false} UpdatedElsewhere(cs: seq<Canvas>, id: Id, other: Id, e: CanvasEdit)
    requires UniqueIds(cs) && e.IsLocal() && other != id && other in TreeIds(cs)
    ensures FindAmong(cs, other).Some? && FindAmong(UpdatedList(cs, HasId(id), e), other).Some?
    ensures Header(FindAmong(UpdatedList(cs, HasId(id), e), other).value) == Header(FindAmong(cs, other).value)
  {
    FoundIffPresent(cs, other);
    var r := UpdatedList(cs, HasId(id), e);
    TreeIdsCons(cs);
    UniqueIdsCons(cs);
    if cs[0].id == id {
      assert r == [Apply(e, cs[0])] + cs[1..];
      assert r[0].Find(other) == cs[0].Find(other);
      assert r[1..] == cs[1..];
    } else if cs[0].id != other {
      assert r[1..] == UpdatedList(cs[1..], HasId(id), e);
      if other in TreeIds(cs[0].children) {
        UpdatedElsewhere(cs[0].children, id, other, e);
      } else {
        UniqueIdsAtMostOne(cs[0].children, id);
        UpdatedTouchesOnlyTarget(cs[0].children, HasId(id), e);
        FoundIffPresent(cs[0].children, other);
        FoundIffPresent(UpdatedList(cs[0].children, HasId(id), e), other);
        UpdatedElsewhere(cs[1..], id, other, e);
      }
    }
  }

  // ----- What an update touches -----

  /** `after` is `before` node for node: a node that matches carries the
      edit, every other node keeps its own fields (its children aside). */
  ghost predicate HeadersEdited(before: seq<Canvas>, after: seq<Canvas>, at: Canvas -> bool, e: CanvasEdit)
  {
    && |after| == |before|
    && forall k :: 0 <= k < |before| ==>
         Header(after[k]) == if at(before[k]) then Apply(e, Header(before[k])) else Header(before[k])
  }

  lemma HeadersEditedConcat(a1: seq<Canvas>, b1: seq<Canvas>, a2: seq<Canvas>, b2: seq<Canvas>,
                            at: Canvas -> bool, e: CanvasEdit)
    requires HeadersEdited(a1, b1, at, e) && HeadersEdited(a2, b2, at, e)
    ensures HeadersEdited(a1 + a2, b1 + b2, at, e)
  {
    forall k | 0 <= k < |a1 + a2|
      ensures Header((b1 + b2)[k]) == if at((a1 + a2)[k]) then Apply(e, Header((a1 + a2)[k])) else Header((a1 + a2)[k])
    {
      if k < |a1| {
        assert (a1 + a2)[k] == a1[k] && (b1 + b2)[k] == b1[k];
      } else {
        assert (a1 + a2)[k] == a2[k - |a1|] && (b1 + b2)[k] == b2[k - |b1|];
      }
    }
  }

  /** A local edit, applied wherever the match holds, changes exactly the
      matching nodes, exactly as the edit says, and leaves the shape of
      the tree and every other node alone. */
  lemma {:induction false} EverywhereHeaders(cs: seq<Canvas>, at: Canvas -> bool, e: CanvasEdit)
    requires e.IsLocal()
    ensures HeadersEdited(PreOrder(cs), PreOrder(EditWhere(cs, at, e)), at, e)
  {
    if cs != [] {
      var c := cs[0].(children := EditWhere(cs[0].children, at, e));
      var node := if at(cs[0]) then Apply(e, c) else c;
      EverywhereHeaders(cs[0].children, at, e);
      EverywhereHeaders(cs[1..], at, e);
      assert EditWhere(cs, at, e)[0] == node;
      assert EditWhere(cs, at, e)[1..] == EditWhere(cs[1..], at, e);
      ApplyHeader(e, c);
      assert Header(c) == Header(cs[0]);
      assert HeadersEdited([cs[0]], [node], at, e);
      HeadersEditedConcat([cs[0]], [node], PreOrder(cs[0].children), PreOrder(node.children), at, e);
      HeadersEditedConcat([cs[0]] + PreOrder(cs[0].children), [node] + PreOrder(node.children),
                          PreOrder(cs[1..]), PreOrder(EditWhere(cs[1..], at, e)), at, e);
    }
  }

  /** Node for node edits keep the ids in place. */
  lemma HeadersEditedIds(before: seq<Canvas>, after: seq<Canvas>, at: Canvas -> bool, e: CanvasEdit)
    requires HeadersEdited(before, after, at, e)
    ensures IdsOf(after) == IdsOf(before)
  {
    forall k | 0 <= k < |before| ensures after[k].id == before[k].id {
      assert Header(after[k]).id == after[k].id;
    }
  }

  /** The nesting of a forest with every field of its nodes forgotten. */
  datatype Shape = Node(kids: seq<Shape>)

  function ShapeOf(cs: seq<Canvas>): seq<Shape>
  {
    if cs == [] then [] else [Node(ShapeOf(cs[0].children))] + ShapeOf(cs[1..])
  }

  /** A local edit applied wherever the match holds keeps the nesting. */
  lemma {:induction false} EverywhereShape(cs: seq<Canvas>, at: Canvas -> bool, e: CanvasEdit)
    requires e.IsLocal()
    ensures ShapeOf(EditWhere(cs, at, e)) == ShapeOf(cs)
  {
    if cs != [] {
      var c := cs[0].(children := EditWhere(cs[0].children, at, e));
      var node := if at(cs[0]) then Apply(e, c) else c;
      EverywhereShape(cs[0].children, at, e);
      EverywhereShape(cs[1..], at, e);
      assert EditWhere(cs, at, e)[0] == node && node.children == c.children;
      assert EditWhere(cs, at, e)[1..] == EditWhere(cs[1..], at, e);
    }
  }

  /** When at most one node matches, a local edit through the source's
      traversal changes that node as the edit says and nothing else: the
      nesting is the same, node for node in pre-order only the match
      changes, and so every id stays where it was. */
  lemma UpdatedTouchesOnlyTarget(cs: seq<Canvas>, at: Canvas -> bool, e: CanvasEdit)
    requires AtMostOne(cs, at) && e.IsLocal()
    ensures ShapeOf(UpdatedList(cs, at, e)) == ShapeOf(cs)
    ensures HeadersEdited(PreOrder(cs), PreOrder(UpdatedList(cs, at, e)), at, e)
    ensures TreeIds(UpdatedList(cs, at, e)) == TreeIds(cs)
  {
    UpdatedIsEverywhere(cs, at, e);
    EverywhereShape(cs, at, e);
    EverywhereHeaders(cs, at, e);
    HeadersEditedIds(PreOrder(cs), PreOrder(UpdatedList(cs, at, e)), at, e);
  }

  // ----- Remove the node with this id anywhere in the tree -----

  /** What `removeCanvas(withId:from:)` returns, and the tree it leaves. */
  datatype Removal = Removal(removed: Option<Canvas>, remaining: seq<Canvas>)

  /** `removeCanvas(withId:from:)`: the first sibling with the id is cut
      out; otherwise each sibling's children are searched in turn, and the
      first removal found ends the search at every level. */
  function RemovedFrom(cs: seq<Canvas>, id: Id): (r: Removal)
    ensures r.removed.Some? ==> r.removed.value.id == id
  {
    if cs == [] then Removal(None, [])
    else if cs[0].id == id then Removal(Some(cs[0]), cs[1..])
    else
      var inner := RemovedFrom(cs[0].children, id);
      if inner.removed.Some? then Removal(inner.removed, [cs[0].(children := inner.remaining)] + cs[1..])
      else
        var later := RemovedFrom(cs[1..], id);
        Removal(later.removed, [cs[0]] + later.remaining)
  }

  /** The node removed is the first node in pre-order with the id: the
      same node `findCanvas` finds. */
  lemma {:induction false} RemovedIsFirst(cs: seq<Canvas>, id: Id)
    ensures RemovedFrom(cs, id).removed == FirstWithId(PreOrder(cs), id)
    ensures RemovedFrom(cs, id).removed == FindAmong(cs, id)
  {
    if cs != [] && cs[0].id != id {
      var inner, later := RemovedFrom(cs[0].children, id), RemovedFrom(cs[1..], id);
      assert RemovedFrom(cs, id).removed == if inner.removed.Some? then inner.removed else later.removed;
      RemovedIsFirst(cs[0].children, id);
      RemovedIsFirst(cs[1..], id);
      var a, b := PreOrder(cs[0].children), PreOrder(cs[1..]);
      FirstAfterRoot(cs, id);
      FirstWithIdConcat(a, b, id);
    }
  }

  /** A first root without the id is skipped by the pre-order search. */
  lemma FirstAfterRoot(cs: seq<Canvas>, id: Id)
    requires cs != [] && cs[0].id != id
    ensures FirstWithId(PreOrder(cs), id) == FirstWithId(PreOrder(cs[0].children) + PreOrder(cs[1..]), id)
  {
    var a, b := PreOrder(cs[0].children), PreOrder(cs[1..]);
    assert PreOrder(cs) == [cs[0]] + a + b;
    ConsAssoc(cs[0], a, b);
    FirstWithIdSkip(cs[0], a + b, id);
  }

  lemma ConsAssoc<T>(x: T, a: seq<T>, b: seq<T>)
    ensures [x] + a + b == [x] + (a + b)
  {
  }

  lemma FirstWithIdSkip(x: Canvas, rest: seq<Canvas>, id: Id)
    requires x.id != id
    ensures FirstWithId([x] + rest, id) == FirstWithId(rest, id)
  {
    assert ([x] + rest)[0] == x && ([x] + rest)[1..] == rest;
  }

  /** The state of a loop that has passed the first i siblings without
      removing anything: removing from the rest and keeping the prefix is
      removing from the whole. */
  ghost predicate RemovalWalked(cs: seq<Canvas>, id: Id, i: nat)
  {
    && i <= |cs|
    && RemovedFrom(cs, id) == Removal(RemovedFrom(cs[i..], id).removed, cs[..i] + RemovedFrom(cs[i..], id).remaining)
  }

  /** Sibling i has the id: it is the node removed. */
  lemma RemovalHit(cs: seq<Canvas>, id: Id, i: nat)
    requires RemovalWalked(cs, id, i) && i < |cs| && cs[i].id == id
    ensures RemovedFrom(cs, id) == Removal(Some(cs[i]), cs[..i] + cs[i + 1..])
  {
    assert cs[i..][0] == cs[i] && cs[i..][1..] == cs[i + 1..];
  }

  /** Sibling i's subtree holds the id: the removal happens there. */
  lemma RemovalInside(cs: seq<Canvas>, id: Id, i: nat, inner: Option<Canvas>, kids: seq<Canvas>)
    requires RemovalWalked(cs, id, i) && i < |cs| && cs[i].id != id
    requires Removal(inner, kids) == RemovedFrom(cs[i].children, id) && inner.Some?
    ensures RemovedFrom(cs, id) == Removal(inner, cs[..i] + [cs[i].(children := kids)] + cs[i + 1..])
  {
    RemovedInsideAt(cs, id, i);
    InsertAssoc(cs[..i], cs[i].(children := kids), cs[i + 1..]);
  }

  /** The removal from sibling i on, when it happens in sibling i's subtree. */
  lemma RemovedInsideAt(cs: seq<Canvas>, id: Id, i: nat)
    requires i < |cs| && cs[i].id != id && RemovedFrom(cs[i].children, id).removed.Some?
    ensures var inner := RemovedFrom(cs[i].children, id);
            RemovedFrom(cs[i..], id) == Removal(inner.removed, [cs[i].(children := inner.remaining)] + cs[i + 1..])
  {
    assert cs[i..][0] == cs[i] && cs[i..][1..] == cs[i + 1..];
  }

  lemma InsertAssoc<T>(a: seq<T>, x: T, b: seq<T>)
    ensures a + ([x] + b) == a + [x] + b
  {
  }

  /** Neither sibling i nor its subtree has the id: the walk moves on. */
  lemma RemovalPast(cs: seq<Canvas>, id: Id, i: nat)
    requires RemovalWalked(cs, id, i) && i < |cs| && cs[i].id != id
    requires RemovedFrom(cs[i].children, id).removed.None?
    ensures RemovalWalked(cs, id, i + 1)
  {
    assert cs[i..][0] == cs[i] && cs[i..][1..] == cs[i + 1..];
    assert cs[..i + 1] == cs[..i] + [cs[i]];
    var later := RemovedFrom(cs[i + 1..], id);
    assert cs[..i] + ([cs[i]] + later.remaining) == cs[..i + 1] + later.remaining;
  }

  /** The walk starts with nothing passed and, past every sibling, has
      removed nothing. */
  lemma RemovalEnds(cs: seq<Canvas>, id: Id)
    ensures RemovalWalked(cs, id, 0)
    ensures RemovalWalked(cs, id, |cs|) ==> RemovedFrom(cs, id) == Removal(None, cs)
  {
    assert cs[..0] == [] && cs[0..] == cs;
    assert cs[..|cs|] == cs && cs[|cs|..] == [];
  }

  /** Nothing found, nothing changed. */
  lemma {:induction false} RemovedNothing(cs: seq<Canvas>, id: Id)
    requires RemovedFrom(cs, id).removed.None?
    ensures RemovedFrom(cs, id).remaining == cs
  {
    if cs != [] && cs[0].id != id {
      RemovedNothing(cs[0].children, id);
      RemovedNothing(cs[1..], id);
      assert cs == [cs[0]] + cs[1..];
    }
  }

  /** Removal loses the removed subtree and nothing else: the ids left
      plus the ids of the removed subtree are the ids before. */
  lemma {:induction false} RemovalConserves(cs: seq<Canvas>, id: Id)
    requires RemovedFrom(cs, id).removed.Some?
    ensures multiset(TreeIds(RemovedFrom(cs, id).remaining)) + multiset(TreeIds([RemovedFrom(cs, id).removed.value]))
            == multiset(TreeIds(cs))
  {
    var r := RemovedFrom(cs, id);
    TreeIdsCons(cs);
    if cs[0].id == id {
      TreeIdsOne(cs[0]);
    } else {
      var inner := RemovedFrom(cs[0].children, id);
      if inner.removed.Some? {
        RemovalConserves(cs[0].children, id);
        TreeIdsCons(r.remaining);
        assert r.remaining[1..] == cs[1..];
      } else {
        RemovalConserves(cs[1..], id);
        TreeIdsCons(r.remaining);
        assert r.remaining[1..] == RemovedFrom(cs[1..], id).remaining;
      }
    }
  }

  /** Two multisets of ids that add up to a duplicate-free one are each
      duplicate-free and share nothing. */
  lemma DistinctParts(whole: seq<Id>, a: seq<Id>, b: seq<Id>)
    requires Distinct(whole) && multiset(a) + multiset(b) == multiset(whole)
    ensures Distinct(a) && Distinct(b)
    ensures forall x :: x in a ==> x !in b
  {
    DistinctSub(whole, a);
    DistinctSub(whole, b);
    DistinctCount(whole);
    forall x | x in a ensures x !in b {
      assert multiset(whole)[x] <= 1;
    }
  }

  /** With unique ids, the removed subtree and what is left share no id,
      and each keeps its ids unique. */
  lemma RemovedUnique(cs: seq<Canvas>, id: Id)
    requires UniqueIds(cs) && RemovedFrom(cs, id).removed.Some?
    ensures UniqueIds(RemovedFrom(cs, id).remaining)
    ensures UniqueIds([RemovedFrom(cs, id).removed.value])
    ensures forall x :: x in TreeIds([RemovedFrom(cs, id).removed.value]) ==> x !in TreeIds(RemovedFrom(cs, id).remaining)
  {
    var r := RemovedFrom(cs, id);
    RemovalConserves(cs, id);
    DistinctParts(TreeIds(cs), TreeIds([r.removed.value]), TreeIds(r.remaining));
  }

  // ----- Re-parenting -----

  /** `moveCanvasToRoot`: a node that was found is appended to the root list. */
  function MovedToRoot(cs: seq<Canvas>, id: Id): (r: seq<Canvas>)
  {
    var rem := RemovedFrom(cs, id);
    if rem.removed.Some? then rem.remaining + [rem.removed.value] else cs
  }

  /** Moving to the root keeps every node: the same ids, each as often as
      before; the node moved is the first with the id and ends up last at
      the root; an absent id changes nothing. */
  lemma MoveToRootConserves(cs: seq<Canvas>, id: Id)
    ensures multiset(TreeIds(MovedToRoot(cs, id))) == multiset(TreeIds(cs))
    ensures FindAmong(cs, id).Some? ==> MovedToRoot(cs, id)[|MovedToRoot(cs, id)| - 1] == FindAmong(cs, id).value
    ensures FindAmong(cs, id).None? ==> MovedToRoot(cs, id) == cs
    ensures UniqueIds(cs) ==> UniqueIds(MovedToRoot(cs, id))
  {
    var rem := RemovedFrom(cs, id);
    RemovedIsFirst(cs, id);
    if rem.removed.Some? {
      RemovalConserves(cs, id);
      TreeIdsConcat(rem.remaining, [rem.removed.value]);
      if UniqueIds(cs) {
        DistinctCount(TreeIds(cs));
        DistinctCount(TreeIds(MovedToRoot(cs, id)));
      }
    }
  }

  /** `updateCanvas(withId: folderId) { $0.children.append(child) }` with
      unique ids and the folder present: the tree gains exactly the
      appended subtree. */
  lemma {:induction false} AppendConserves(cs: seq<Canvas>, folderId: Id, child: Canvas)
    requires UniqueIds(cs) && folderId in TreeIds(cs)
    ensures multiset(TreeIds(UpdatedList(cs, HasId(folderId), AppendChild(child))))
            == multiset(TreeIds(cs)) + multiset(TreeIds([child]))
  {
    var e := AppendChild(child);
    var r := UpdatedList(cs, HasId(folderId), e);
    TreeIdsCons(cs);
    TreeIdsCons(r);
    UniqueIdsCons(cs);
    if cs[0].id == folderId {
      assert r[1..] == cs[1..];
      TreeIdsConcat(cs[0].children, [child]);
    } else {
      assert r[1..] == UpdatedList(cs[1..], HasId(folderId), e);
      if folderId in TreeIds(cs[0].children) {
        DisjointMembers(TreeIds(cs[0].children), TreeIds(cs[1..]), folderId);
        AppendConserves(cs[0].children, folderId, child);
        AbsentIdNoneMatch(cs[1..], folderId);
        UpdatedAbsent(cs[1..], HasId(folderId), e);
      } else {
        AppendConserves(cs[1..], folderId, child);
        AbsentIdNoneMatch(cs[0].children, folderId);
        UpdatedAbsent(cs[0].children, HasId(folderId), e);
      }
    }
  }

  /** `addCanvasToExistingFolder`: remove the node with the canvas's id
      (result ignored), then append the caller's canvas value to the folder. */
  function AddedToFolder(cs: seq<Canvas>, canvas: Canvas, folderId: Id): seq<Canvas>
  {
    UpdatedList(RemovedFrom(cs, canvas.id).remaining, HasId(folderId), AppendChild(canvas))
  }

  /** The intended case: the canvas is in the tree and the folder is not
      inside it. The node removed gives way to the value appended, so when
      the caller's value is the current node every id is kept, each once. */
  lemma AddToFolderMoves(cs: seq<Canvas>, canvas: Canvas, folderId: Id)
    requires UniqueIds(cs) && RemovedFrom(cs, canvas.id).removed.Some?
    requires folderId in TreeIds(RemovedFrom(cs, canvas.id).remaining)
    ensures multiset(TreeIds(AddedToFolder(cs, canvas, folderId))) + multiset(TreeIds([RemovedFrom(cs, canvas.id).removed.value]))
            == multiset(TreeIds(cs)) + multiset(TreeIds([canvas]))
    ensures RemovedFrom(cs, canvas.id).removed == Some(canvas) ==>
              multiset(TreeIds(AddedToFolder(cs, canvas, folderId))) == multiset(TreeIds(cs))
  {
    RemovedUnique(cs, canvas.id);
    RemovalConserves(cs, canvas.id);
    AppendConserves(RemovedFrom(cs, canvas.id).remaining, folderId, canvas);
  }

  /** The folder sat inside the canvas (or is the canvas): the append
      finds no folder, and the canvas's whole subtree is gone. */
  lemma AddToFolderLoses(cs: seq<Canvas>, canvas: Canvas, folderId: Id)
    requires UniqueIds(cs) && RemovedFrom(cs, canvas.id).removed.Some?
    requires folderId in TreeIds([RemovedFrom(cs, canvas.id).removed.value])
    ensures AddedToFolder(cs, canvas, folderId) == RemovedFrom(cs, canvas.id).remaining
    ensures multiset(TreeIds(AddedToFolder(cs, canvas, folderId))) + multiset(TreeIds([RemovedFrom(cs, canvas.id).removed.value]))
            == multiset(TreeIds(cs))
    ensures canvas.id !in TreeIds(AddedToFolder(cs, canvas, folderId))
  {
    var n := RemovedFrom(cs, canvas.id).removed.value;
    RemovedUnique(cs, canvas.id);
    RemovalConserves(cs, canvas.id);
    AbsentIdNoneMatch(RemovedFrom(cs, canvas.id).remaining, folderId);
    UpdatedAbsent(RemovedFrom(cs, canvas.id).remaining, HasId(folderId), AppendChild(canvas));
    TreeIdsOne(n);
  }

  /** The canvas is not in the tree: nothing is removed, yet its value is
      still appended, so the tree gains its whole subtree. */
  lemma AddToFolderDuplicates(cs: seq<Canvas>, canvas: Canvas, folderId: Id)
    requires UniqueIds(cs) && canvas.id !in TreeIds(cs) && folderId in TreeIds(cs)
    ensures multiset(TreeIds(AddedToFolder(cs, canvas, folderId))) == multiset(TreeIds(cs)) + multiset(TreeIds([canvas]))
  {
    RemovedIsFirst(cs, canvas.id);
    RemovedNothing(cs, canvas.id);
    AppendConserves(cs, folderId, canvas);
  }

  /** So when the value passed in carries a descendant that is already in
      the tree, that id occurs twice afterwards: ids are no longer unique. */
  lemma AddToFolderRepeatsDescendant(cs: seq<Canvas>, canvas: Canvas, folderId: Id, x: Id)
    requires UniqueIds(cs) && canvas.id !in TreeIds(cs) && folderId in TreeIds(cs)
    requires x in TreeIds(canvas.children) && x in TreeIds(cs)
    ensures !UniqueIds(AddedToFolder(cs, canvas, folderId))
  {
    var after := TreeIds(AddedToFolder(cs, canvas, folderId));
    AddToFolderDuplicates(cs, canvas, folderId);
    TreeIdsOne(canvas);
    assert x in TreeIds([canvas]);
    assert multiset(after)[x] == multiset(TreeIds(cs))[x] + multiset(TreeIds([canvas]))[x];
    assert multiset(after)[x] >= 2;
    DistinctCount(after);
  }
}
