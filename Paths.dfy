/** Positions in the canvas tree and the three things done at a position:
    cut the subtree out, put a subtree in, edit the node. Removal, the
    moves built on it and the update of the node with a unique id are each
    shown to be one of these, so what they leave alone is stated exactly. */
module TreePaths {
  import opened Base
  import opened CanvasModel
  import opened CanvasEdits
  import opened CanvasTree

  /** A path: an index among the roots, then among that node's children,
      and so on down to the node it names. */
  ghost predicate ValidPath(cs: seq<Canvas>, p: seq<nat>)
    decreases |p|
  {
    && |p| > 0 && p[0] < |cs|
    && (|p| > 1 ==> ValidPath(cs[p[0]].children, p[1..]))
  }

  /** A slot: like a path, but the last index may be one past the end. */
  ghost predicate ValidSlot(cs: seq<Canvas>, p: seq<nat>)
    decreases |p|
  {
    && |p| > 0
    && if |p| == 1 then p[0] <= |cs| else p[0] < |cs| && ValidSlot(cs[p[0]].children, p[1..])
  }

  /** The node a path names, with its subtree. */
  ghost function SubtreeAt(cs: seq<Canvas>, p: seq<nat>): Canvas
    requires ValidPath(cs, p)
    decreases |p|
  {
    if |p| == 1 then cs[p[0]] else SubtreeAt(cs[p[0]].children, p[1..])
  }

  /** The forest with the subtree at the path cut out: its parent loses
      that one child and every other node stays as it was. */
  ghost function CutAt(cs: seq<Canvas>, p: seq<nat>): (r: seq<Canvas>)
    requires ValidPath(cs, p)
    ensures |r| == if |p| == 1 then |cs| - 1 else |cs|
    decreases |p|
  {
    if |p| == 1 then cs[..p[0]] + cs[p[0] + 1..]
    else cs[p[0] := cs[p[0]].(children := CutAt(cs[p[0]].children, p[1..]))]
  }

  /** The forest with `c` put in at the slot. */
  ghost function PutAt(cs: seq<Canvas>, p: seq<nat>, c: Canvas): (r: seq<Canvas>)
    requires ValidSlot(cs, p)
    ensures |r| == if |p| == 1 then |cs| + 1 else |cs|
    decreases |p|
  {
    if |p| == 1 then cs[..p[0]] + [c] + cs[p[0]..]
    else cs[p[0] := cs[p[0]].(children := PutAt(cs[p[0]].children, p[1..], c))]
  }

  /** The forest with the edit applied to the node at the path. */
  ghost function EditAt(cs: seq<Canvas>, p: seq<nat>, e: CanvasEdit): (r: seq<Canvas>)
    requires ValidPath(cs, p)
    ensures |r| == |cs|
    decreases |p|
  {
    if |p| == 1 then cs[p[0] := Apply(e, cs[p[0]])]
    else cs[p[0] := cs[p[0]].(children := EditAt(cs[p[0]].children, p[1..], e))]
  }

  // ----- Cut and put are inverse -----

  /** Putting the cut subtree back where it was gives the forest back:
      the cut lost that subtree and nothing else. */
  lemma {:induction false} CutPut(cs: seq<Canvas>, p: seq<nat>)
    requires ValidPath(cs, p)
    ensures ValidSlot(CutAt(cs, p), p)
    ensures PutAt(CutAt(cs, p), p, SubtreeAt(cs, p)) == cs
    decreases |p|
  {
    var i := p[0];
    var cut := CutAt(cs, p);
    if |p| == 1 {
      assert cut[..i] == cs[..i] && cut[i..] == cs[i + 1..];
      assert cs == cs[..i] + [cs[i]] + cs[i + 1..];
    } else {
      var kids := cs[i].children;
      CutPut(kids, p[1..]);
      assert cut[i] == cs[i].(children := CutAt(kids, p[1..]));
      assert cut[i].(children := kids) == cs[i];
    }
  }

  /** Cutting out what was just put in gives the forest back, and the
      path then names the subtree put in. */
  lemma {:induction false} PutCut(cs: seq<Canvas>, p: seq<nat>, c: Canvas)
    requires ValidSlot(cs, p)
    ensures ValidPath(PutAt(cs, p, c), p)
    ensures SubtreeAt(PutAt(cs, p, c), p) == c
    ensures CutAt(PutAt(cs, p, c), p) == cs
    decreases |p|
  {
    var i := p[0];
    var put := PutAt(cs, p, c);
    if |p| == 1 {
      assert put[i] == c;
      assert put[..i] == cs[..i] && put[i + 1..] == cs[i..];
      assert cs == cs[..i] + cs[i..];
    } else {
      var kids := cs[i].children;
      PutCut(kids, p[1..], c);
      assert put[i] == cs[i].(children := PutAt(kids, p[1..], c));
      assert put[i].(children := kids) == cs[i];
    }
  }

  /** Editing at a path replaces the subtree there by its edited copy and
      changes nothing else. */
  lemma {:induction false} EditIsReplace(cs: seq<Canvas>, p: seq<nat>, e: CanvasEdit)
    requires ValidPath(cs, p)
    ensures ValidSlot(CutAt(cs, p), p)
    ensures EditAt(cs, p, e) == PutAt(CutAt(cs, p), p, Apply(e, SubtreeAt(cs, p)))
    decreases |p|
  {
    var i := p[0];
    var cut := CutAt(cs, p);
    CutPut(cs, p);
    if |p| == 1 {
      assert cut[..i] == cs[..i] && cut[i..] == cs[i + 1..];
      assert cs[i := Apply(e, cs[i])] == cs[..i] + [Apply(e, cs[i])] + cs[i + 1..];
    } else {
      var kids := cs[i].children;
      EditIsReplace(kids, p[1..], e);
      assert cut[i] == cs[i].(children := CutAt(kids, p[1..]));
      assert cut[i].(children := EditAt(kids, p[1..], e)) == cs[i].(children := EditAt(kids, p[1..], e));
    }
  }

  // ----- Paths into the first tree and into the later ones -----

  /** A path into the later trees, seen from the whole forest. */
  function Shift(p: seq<nat>): (r: seq<nat>)
    requires |p| > 0
    ensures |r| == |p| && r[0] == p[0] + 1 && r[1..] == p[1..]
  {
    [p[0] + 1] + p[1..]
  }

  lemma ShiftPath(cs: seq<Canvas>, p: seq<nat>, e: CanvasEdit)
    requires cs != [] && ValidPath(cs[1..], p)
    ensures ValidPath(cs, Shift(p)) && SubtreeAt(cs, Shift(p)) == SubtreeAt(cs[1..], p)
    ensures CutAt(cs, Shift(p)) == [cs[0]] + CutAt(cs[1..], p)
    ensures EditAt(cs, Shift(p), e) == [cs[0]] + EditAt(cs[1..], p, e)
  {
    ShiftValid(cs, p);
    ShiftCut(cs, p);
    ShiftEdit(cs, p, e);
  }

  lemma ShiftValid(cs: seq<Canvas>, p: seq<nat>)
    requires cs != [] && ValidPath(cs[1..], p)
    ensures ValidPath(cs, Shift(p)) && SubtreeAt(cs, Shift(p)) == SubtreeAt(cs[1..], p)
  {
    var q := Shift(p);
    assert cs[q[0]] == cs[1..][p[0]];
  }

  lemma ShiftCut(cs: seq<Canvas>, p: seq<nat>)
    requires cs != [] && ValidPath(cs[1..], p)
    ensures ValidPath(cs, Shift(p))
    ensures CutAt(cs, Shift(p)) == [cs[0]] + CutAt(cs[1..], p)
  {
    ShiftValid(cs, p);
    var i := p[0];
    if |p| == 1 {
      assert CutAt(cs, Shift(p)) == cs[..i + 1] + cs[i + 2..];
      SliceDrop(cs, i);
    } else {
      var x := cs[1..][i].(children := CutAt(cs[1..][i].children, p[1..]));
      assert CutAt(cs, Shift(p)) == cs[i + 1 := x];
      SliceUpdate(cs, i, x);
    }
  }

  lemma ShiftEdit(cs: seq<Canvas>, p: seq<nat>, e: CanvasEdit)
    requires cs != [] && ValidPath(cs[1..], p)
    ensures ValidPath(cs, Shift(p))
    ensures EditAt(cs, Shift(p), e) == [cs[0]] + EditAt(cs[1..], p, e)
  {
    ShiftValid(cs, p);
    var i := p[0];
    var x := if |p| == 1 then Apply(e, cs[1..][i])
             else cs[1..][i].(children := EditAt(cs[1..][i].children, p[1..], e));
    assert EditAt(cs, Shift(p), e) == cs[i + 1 := x];
    SliceUpdate(cs, i, x);
  }

  /** Dropping past the first element is dropping from the tail. */
  lemma SliceDrop<T>(s: seq<T>, i: nat)
    requires i + 1 < |s|
    ensures s[..i + 1] + s[i + 2..] == [s[0]] + (s[1..][..i] + s[1..][i + 1..])
  {
    assert s[..i + 1] == [s[0]] + s[1..][..i];
    assert s[i + 2..] == s[1..][i + 1..];
  }

  /** Updating past the first element is updating the tail. */
  lemma SliceUpdate<T>(s: seq<T>, i: nat, x: T)
    requires i + 1 < |s|
    ensures s[i + 1 := x] == [s[0]] + s[1..][i := x]
  {
  }

  lemma ChildPath(cs: seq<Canvas>, p: seq<nat>, e: CanvasEdit)
    requires cs != [] && ValidPath(cs[0].children, p)
    ensures ValidPath(cs, [0] + p) && SubtreeAt(cs, [0] + p) == SubtreeAt(cs[0].children, p)
    ensures CutAt(cs, [0] + p) == [cs[0].(children := CutAt(cs[0].children, p))] + cs[1..]
    ensures EditAt(cs, [0] + p, e) == [cs[0].(children := EditAt(cs[0].children, p, e))] + cs[1..]
  {
    assert ([0] + p)[0] == 0 && ([0] + p)[1..] == p;
  }

  // ----- The first node with an id -----

  /** The path to the first node in pre-order with the id. */
  ghost function FirstPath(cs: seq<Canvas>, id: Id): (r: Option<seq<nat>>)
    ensures r.Some? ==> ValidPath(cs, r.value) && SubtreeAt(cs, r.value).id == id
  {
    if cs == [] then None
    else if cs[0].id == id then Some([0])
    else
      match FirstPath(cs[0].children, id)
      case Some(q) => ChildPath(cs, q, Rename([])); Some([0] + q)
      case None =>
        match FirstPath(cs[1..], id)
        case Some(q) => ShiftPath(cs, q, Rename([])); Some(Shift(q))
        case None => None
  }

  /** There is a first path exactly when the id is in the tree. */
  lemma {:induction false} FirstPathIffPresent(cs: seq<Canvas>, id: Id)
    ensures FirstPath(cs, id).Some? <==> id in TreeIds(cs)
  {
    if cs != [] {
      TreeIdsCons(cs);
      FirstPathIffPresent(cs[0].children, id);
      FirstPathIffPresent(cs[1..], id);
    }
  }

  // ----- What removal and update are -----

  /** `removeCanvas(withId:from:)` cuts out the subtree at the first path
      with the id and returns it; with no such path nothing changes. */
  lemma {:induction false} RemovalIsCut(cs: seq<Canvas>, id: Id)
    ensures FirstPath(cs, id).None? ==> RemovedFrom(cs, id) == Removal(None, cs)
    ensures FirstPath(cs, id).Some? ==>
              var p := FirstPath(cs, id).value;
              RemovedFrom(cs, id) == Removal(Some(SubtreeAt(cs, p)), CutAt(cs, p))
  {
    if cs == [] {
    } else if cs[0].id == id {
      assert cs[..0] + cs[1..] == cs[1..];
    } else {
      var kids := cs[0].children;
      RemovalIsCut(kids, id);
      RemovalIsCut(cs[1..], id);
      match FirstPath(kids, id)
      case Some(q) =>
        ChildPath(cs, q, Rename([]));
      case None =>
        match FirstPath(cs[1..], id)
        case Some(q) =>
          ShiftPath(cs, q, Rename([]));
        case None =>
          assert [cs[0]] + cs[1..] == cs;
    }
  }

  /** With unique ids, updating the node with an id, whatever the edit
      (appending a child included), edits the node at its path and
      nothing else. */
  lemma {:induction false} UpdatedIsEditAt(cs: seq<Canvas>, id: Id, e: CanvasEdit)
    requires UniqueIds(cs) && id in TreeIds(cs)
    ensures FirstPath(cs, id).Some?
    ensures UpdatedList(cs, HasId(id), e) == EditAt(cs, FirstPath(cs, id).value, e)
  {
    FirstPathIffPresent(cs, id);
    var r := UpdatedList(cs, HasId(id), e);
    if cs[0].id == id {
      assert r == cs[0 := Apply(e, cs[0])];
    } else {
      var kids := cs[0].children;
      TreeIdsCons(cs);
      UniqueIdsCons(cs);
      assert r == [cs[0].(children := UpdatedList(kids, HasId(id), e))] + UpdatedList(cs[1..], HasId(id), e);
      FirstPathIffPresent(kids, id);
      if id in TreeIds(kids) {
        UpdatedIsEditAt(kids, id, e);
        DisjointMembers(TreeIds(kids), TreeIds(cs[1..]), id);
        AbsentIdNoneMatch(cs[1..], id);
        UpdatedAbsent(cs[1..], HasId(id), e);
        ChildPath(cs, FirstPath(kids, id).value, e);
      } else {
        AbsentIdNoneMatch(kids, id);
        UpdatedAbsent(kids, HasId(id), e);
        assert cs[0].(children := kids) == cs[0];
        UpdatedIsEditAt(cs[1..], id, e);
        ShiftPath(cs, FirstPath(cs[1..], id).value, e);
      }
    }
  }

  // ----- The moves -----

  /** `moveCanvasToRoot`: the subtree at the first path with the id is cut
      out and appended to the roots; the rest of the tree is the cut tree. */
  lemma MoveToRootIsCut(cs: seq<Canvas>, id: Id)
    requires id in TreeIds(cs)
    ensures FirstPath(cs, id).Some?
    ensures var p := FirstPath(cs, id).value;
            MovedToRoot(cs, id) == CutAt(cs, p) + [SubtreeAt(cs, p)]
  {
    FirstPathIffPresent(cs, id);
    RemovalIsCut(cs, id);
  }

  /** `addCanvasToExistingFolder` with unique ids, the canvas in the tree
      and the folder outside it: the canvas's subtree is cut out, then the
      folder, found in the cut tree, gets the value passed in appended to
      its children (`AppendAtIsReplace`); nothing else changes. */
  lemma AddToFolderIsCutThenAppend(cs: seq<Canvas>, canvas: Canvas, folderId: Id)
    requires UniqueIds(cs) && canvas.id in TreeIds(cs)
    requires folderId in TreeIds(RemovedFrom(cs, canvas.id).remaining)
    ensures FirstPath(cs, canvas.id).Some?
    ensures var cut := CutAt(cs, FirstPath(cs, canvas.id).value);
            && FirstPath(cut, folderId).Some?
            && AddedToFolder(cs, canvas, folderId) == EditAt(cut, FirstPath(cut, folderId).value, AppendChild(canvas))
  {
    FirstPathIffPresent(cs, canvas.id);
    RemovalIsCut(cs, canvas.id);
    var cut := CutAt(cs, FirstPath(cs, canvas.id).value);
    assert RemovedFrom(cs, canvas.id).remaining == cut;
    RemovedUnique(cs, canvas.id);
    UpdatedIsEditAt(cut, folderId, AppendChild(canvas));
  }

  /** Appending a child at a path replaces the node there by itself with
      the child added last, and changes nothing else. */
  lemma AppendAtIsReplace(cs: seq<Canvas>, p: seq<nat>, child: Canvas)
    requires ValidPath(cs, p)
    ensures ValidSlot(CutAt(cs, p), p)
    ensures var node := SubtreeAt(cs, p);
            EditAt(cs, p, AppendChild(child)) == PutAt(CutAt(cs, p), p, node.(children := node.children + [child]))
  {
    EditIsReplace(cs, p, AppendChild(child));
  }
}
