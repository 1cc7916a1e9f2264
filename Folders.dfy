/** The folder side of MBDump/Models/DataStore.swift: flattening the tree
    into canvases and folders, finding a canvas's parent, naming a new
    folder "Folder N", wrapping a root canvas in a new folder, and
    deleting at the root. */
module Folders {
  import opened Base
  import opened CanvasModel
  import opened CanvasTree

  // ----- Flattening -----

  predicate IsFolderNode(c: Canvas) { c.isFolder }

  predicate IsPlainNode(c: Canvas) { !c.isFolder }

  /** What `getAllCanvases` returns: every non-folder node, in pre-order. */
  ghost function AllCanvases(cs: seq<Canvas>): seq<Canvas>
  {
    Filter(PreOrder(cs), IsPlainNode)
  }

  /** What `getAllFolders` returns: every folder node, in pre-order. */
  ghost function AllFolders(cs: seq<Canvas>): seq<Canvas>
  {
    Filter(PreOrder(cs), IsFolderNode)
  }

  /** Between them the two lists hold every node of the tree exactly as
      often as it occurs, each node in the list its flag says. */
  lemma FlattenPartition(cs: seq<Canvas>)
    ensures multiset(AllCanvases(cs)) + multiset(AllFolders(cs)) == multiset(PreOrder(cs))
    ensures |AllCanvases(cs)| + |AllFolders(cs)| == |PreOrder(cs)|
    ensures forall c :: c in PreOrder(cs) ==> (c in AllCanvases(cs) <==> !c.isFolder) && (c in AllFolders(cs) <==> c.isFolder)
  {
    FilterSplit(PreOrder(cs), IsPlainNode, IsFolderNode);
  }

  /** The step of a collecting loop: the flattening of one more root is
      that root, if kept, and then the flattening of its children. */
  lemma FlattenStep(cs: seq<Canvas>, i: nat, keep: Canvas -> bool, before: seq<Canvas>, below: seq<Canvas>)
    requires i < |cs|
    requires before == Filter(PreOrder(cs[..i]), keep) && below == Filter(PreOrder(cs[i].children), keep)
    ensures Filter(PreOrder(cs[..i + 1]), keep) == if keep(cs[i]) then before + [cs[i]] + below else before + below
  {
    PreOrderAt(cs, i);
    FilterConcat(PreOrder(cs[..i]), [cs[i]] + PreOrder(cs[i].children), keep);
    FilterConcat([cs[i]], PreOrder(cs[i].children), keep);
    FilterOne(cs[i], keep);
  }

  // ----- Parent search -----

  /** `candidate.children.contains(where: { $0.id == id })` */
  function IsParentOf(id: Id): Canvas -> bool
  {
    (c: Canvas) => id in IdsOf(c.children)
  }

  /** The first node of `nodes` that satisfies `p`. */
  function FirstWhere(nodes: seq<Canvas>, p: Canvas -> bool): (r: Option<Canvas>)
    ensures r.None? <==> forall k :: 0 <= k < |nodes| ==> !p(nodes[k])
    ensures r.Some? ==> exists k :: 0 <= k < |nodes| && nodes[k] == r.value && p(r.value) &&
                                    forall j :: 0 <= j < k ==> !p(nodes[j])
  {
    if nodes == [] then None
    else if p(nodes[0]) then Some(nodes[0])
    else FirstWhere(nodes[1..], p)
  }

  /** Looking a node up by id is the first node that has the id. */
  lemma {:induction false} FirstWithIdIsFirstWhere(nodes: seq<Canvas>, id: Id)
    ensures FirstWithId(nodes, id) == FirstWhere(nodes, HasId(id))
  {
    if nodes != [] && nodes[0].id != id {
      FirstWithIdIsFirstWhere(nodes[1..], id);
    }
  }

  lemma {:induction false} FirstWhereConcat(a: seq<Canvas>, b: seq<Canvas>, p: Canvas -> bool)
    ensures FirstWhere(a + b, p) == if FirstWhere(a, p).Some? then FirstWhere(a, p) else FirstWhere(b, p)
  {
    if a == [] {
      assert a + b == b;
    } else {
      assert (a + b)[0] == a[0] && (a + b)[1..] == a[1..] + b;
      FirstWhereConcat(a[1..], b, p);
    }
  }

  /** One step of a search over the siblings of `cs`, none of the first i
      trees holding a match: a match at sibling i, or else in its subtree,
      is the first one in the whole forest; with neither, the first i + 1
      trees hold none. */
  lemma FirstWhereStep(cs: seq<Canvas>, i: nat, p: Canvas -> bool)
    requires i < |cs| && FirstWhere(PreOrder(cs[..i]), p).None?
    ensures p(cs[i]) ==> FirstWhere(PreOrder(cs), p) == Some(cs[i])
    ensures !p(cs[i]) && FirstWhere(PreOrder(cs[i].children), p).Some? ==>
              FirstWhere(PreOrder(cs), p) == FirstWhere(PreOrder(cs[i].children), p)
    ensures !p(cs[i]) && FirstWhere(PreOrder(cs[i].children), p).None? ==>
              FirstWhere(PreOrder(cs[..i + 1]), p).None?
  {
    var head := [cs[i]] + PreOrder(cs[i].children);
    PreOrderAt(cs, i);
    assert cs == cs[..i + 1] + cs[i + 1..];
    PreOrderConcat(cs[..i + 1], cs[i + 1..]);
    FirstWhereConcat(PreOrder(cs[..i + 1]), PreOrder(cs[i + 1..]), p);
    FirstWhereConcat(PreOrder(cs[..i]), head, p);
    FirstWhereConcat([cs[i]], PreOrder(cs[i].children), p);
    FirstWhereOne(cs[i], p);
  }

  lemma FirstWhereOne(c: Canvas, p: Canvas -> bool)
    ensures FirstWhere([c], p) == if p(c) then Some(c) else None
  {
    assert [c][1..] == [];
  }

  /** What `getParentFolder(of:)` returns: the first node in pre-order
      that has a child with the id. Folder or not, it is the parent. */
  ghost function ParentOf(cs: seq<Canvas>, id: Id): Option<Canvas>
  {
    FirstWhere(PreOrder(cs), IsParentOf(id))
  }

  /** A root sits in the forest's pre-order. */
  lemma RootsInPreOrder(cs: seq<Canvas>)
    ensures forall c :: c in cs ==> c in PreOrder(cs)
  {
    forall c | c in cs ensures c in PreOrder(cs) {
      var i :| 0 <= i < |cs| && cs[i] == c;
      assert cs == cs[..i] + [c] + cs[i + 1..];
      PreOrderConcat(cs[..i] + [c], cs[i + 1..]);
      PreOrderConcat(cs[..i], [c]);
      PreOrderOne(c);
    }
  }

  /** The subtree below a node of the forest lies in the forest. */
  lemma {:induction false} SubtreeInPreOrder(cs: seq<Canvas>, c: Canvas)
    requires c in PreOrder(cs)
    ensures forall d :: d in PreOrder(c.children) ==> d in PreOrder(cs)
  {
    if cs != [] {
      if c == cs[0] {
      } else if c in PreOrder(cs[0].children) {
        SubtreeInPreOrder(cs[0].children, c);
      } else {
        SubtreeInPreOrder(cs[1..], c);
      }
    }
  }

  /** The roots' ids are in the tree. */
  lemma RootIdsInTree(cs: seq<Canvas>)
    ensures forall x :: x in IdsOf(cs) ==> x in TreeIds(cs)
  {
    RootsInPreOrder(cs);
    forall x | x in IdsOf(cs) ensures x in TreeIds(cs) {
      var j :| 0 <= j < |cs| && IdsOf(cs)[j] == x;
      assert cs[j] in PreOrder(cs);
      var k :| 0 <= k < |PreOrder(cs)| && PreOrder(cs)[k] == cs[j];
      assert TreeIds(cs)[k] == x;
    }
  }

  /** An id carried by a child of some node of the forest is in the tree. */
  lemma ChildIdInTree(cs: seq<Canvas>, c: Canvas, x: Id)
    requires c in PreOrder(cs) && x in IdsOf(c.children)
    ensures x in TreeIds(cs)
  {
    RootIdsInTree(c.children);
    SubtreeInPreOrder(cs, c);
    var k :| 0 <= k < |TreeIds(c.children)| && TreeIds(c.children)[k] == x;
    assert PreOrder(c.children)[k] in PreOrder(cs);
    var m :| 0 <= m < |PreOrder(cs)| && PreOrder(cs)[m] == PreOrder(c.children)[k];
    assert TreeIds(cs)[m] == x;
  }

  /** With unique ids no child of any node carries a root's id. */
  lemma {:induction false} ChildIdsAreNotRoots(cs: seq<Canvas>, c: Canvas, x: Id)
    requires UniqueIds(cs) && c in PreOrder(cs) && x in IdsOf(c.children)
    ensures x !in IdsOf(cs)
  {
    UniqueIdsCons(cs);
    TreeIdsCons(cs);
    assert IdsOf(cs) == [cs[0].id] + IdsOf(cs[1..]);
    RootIdsInTree(cs[1..]);
    if c == cs[0] || c in PreOrder(cs[0].children) {
      if c == cs[0] {
        RootIdsInTree(cs[0].children);
      } else {
        ChildIdInTree(cs[0].children, c, x);
      }
      DisjointMembers(TreeIds(cs[0].children), TreeIds(cs[1..]), x);
    } else {
      ChildIdsAreNotRoots(cs[1..], c, x);
      ChildIdInTree(cs[1..], c, x);
    }
  }

  /** With unique ids a root canvas has no parent: `isCanvasInFolder` is
      false for it. */
  lemma RootHasNoParent(cs: seq<Canvas>, id: Id)
    requires UniqueIds(cs) && id in IdsOf(cs)
    ensures ParentOf(cs, id).None?
  {
    forall k | 0 <= k < |PreOrder(cs)| ensures !IsParentOf(id)(PreOrder(cs)[k]) {
      if id in IdsOf(PreOrder(cs)[k].children) {
        ChildIdsAreNotRoots(cs, PreOrder(cs)[k], id);
      }
    }
  }

  /** Any child of any node has a parent, and the parent found has it as a child. */
  lemma ChildHasParent(cs: seq<Canvas>, c: Canvas, d: Canvas)
    requires c in PreOrder(cs) && d in c.children
    ensures ParentOf(cs, d.id).Some?
    ensures d.id in IdsOf(ParentOf(cs, d.id).value.children)
  {
    var j :| 0 <= j < |c.children| && c.children[j] == d;
    assert IdsOf(c.children)[j] == d.id;
    var k :| 0 <= k < |PreOrder(cs)| && PreOrder(cs)[k] == c;
    assert IsParentOf(d.id)(PreOrder(cs)[k]);
  }

  // ----- "Folder N" -----

  function Digit(d: nat): char
    requires d < 10
  {
    ('0' as int + d) as char
  }

  /** Swift's `"\(n)"` for a non-negative integer: decimal, no leading zeros. */
  function NatToString(n: nat): (r: string)
    ensures |r| >= 1
  {
    if n < 10 then [Digit(n)] else NatToString(n / 10) + [Digit(n % 10)]
  }

  /** Different numbers print differently. */
  lemma {:induction false} NatToStringInjective(a: nat, b: nat)
    requires NatToString(a) == NatToString(b)
    ensures a == b
  {
    var sa, sb := NatToString(a), NatToString(b);
    if a >= 10 && b >= 10 {
      assert sa[..|sa| - 1] == NatToString(a / 10) && sb[..|sb| - 1] == NatToString(b / 10);
      NatToStringInjective(a / 10, b / 10);
      assert sa[|sa| - 1] == Digit(a % 10) && sb[|sb| - 1] == Digit(b % 10);
    } else if a < 10 && b < 10 {
      assert sa[0] == Digit(a) && sb[0] == Digit(b);
    }
  }

  /** `"Folder \(folderNumber)"` */
  function FolderName(n: nat): string
  {
    "Folder " + NatToString(n)
  }

  lemma FolderNameInjective(a: nat, b: nat)
    requires FolderName(a) == FolderName(b)
    ensures a == b
  {
    assert FolderName(a)[7..] == NatToString(a) && FolderName(b)[7..] == NatToString(b);
    NatToStringInjective(a, b);
  }

  /** The names "Folder 1" up to "Folder n-1". */
  function NamesBelow(n: nat): set<string>
  {
    if n <= 1 then {} else NamesBelow(n - 1) + {FolderName(n - 1)}
  }

  lemma {:induction false} NamesBelowSpec(n: nat)
    requires n >= 1
    ensures |NamesBelow(n)| == n - 1
    ensures forall m: nat :: FolderName(m) in NamesBelow(n) <==> 1 <= m < n
  {
    if n > 1 {
      NamesBelowSpec(n - 1);
      forall m: nat | FolderName(m) == FolderName(n - 1) ensures m == n - 1 {
        FolderNameInjective(m, n - 1);
      }
    }
  }

  /** A set holding all of "Folder 1" to "Folder n-1" has at least n-1 names. */
  lemma NamesBelowBound(names: set<string>, n: nat)
    requires n >= 1 && NamesBelow(n) <= names
    ensures n - 1 <= |names|
  {
    NamesBelowSpec(n);
    assert names == NamesBelow(n) + (names - NamesBelow(n));
  }

  /** The loop of `generateFolderName`, from `folderNumber == n` on: the
      first number from n whose name is not taken. Every name it skips is
      one of the finitely many taken ones, which bounds the search. */
  function FirstFreeFrom(names: set<string>, n: nat): (r: nat)
    requires n >= 1 && NamesBelow(n) <= names
    ensures r >= n && FolderName(r) !in names && NamesBelow(r) <= names
    decreases |names| - (n - 1)
  {
    NamesBelowBound(names, n);
    if FolderName(n) in names then
      NamesBelowBound(names, n + 1);
      FirstFreeFrom(names, n + 1)
    else n
  }

  /** The number `generateFolderName` settles on. */
  function FreeFolderNumber(names: set<string>): nat
  {
    FirstFreeFrom(names, 1)
  }

  /** "Folder N" for the least N >= 1 whose name is not taken. */
  lemma FreeFolderNumberSpec(names: set<string>)
    ensures FreeFolderNumber(names) >= 1
    ensures FolderName(FreeFolderNumber(names)) !in names
    ensures forall m :: 1 <= m < FreeFolderNumber(names) ==> FolderName(m) in names
  {
    NamesBelowSpec(FreeFolderNumber(names));
  }

  /** The names of the folders among `nodes`. */
  function FolderNamesOf(nodes: seq<Canvas>): set<string>
  {
    set c | c in nodes && c.isFolder :: c.name
  }

  lemma FolderNamesOfConcat(a: seq<Canvas>, b: seq<Canvas>)
    ensures FolderNamesOf(a + b) == FolderNamesOf(a) + FolderNamesOf(b)
  {
  }

  lemma FolderNamesOfOne(c: Canvas)
    ensures FolderNamesOf([c]) == if c.isFolder then {c.name} else {}
  {
  }

  /** What `getAllFolderNames` returns: the names of all folders in the tree. */
  ghost function FolderNames(cs: seq<Canvas>): set<string>
  {
    FolderNamesOf(PreOrder(cs))
  }

  // ----- createNewFolder -----

  /** `canvases.firstIndex(where: { $0.id == id })` over the roots. */
  function RootIndex(cs: seq<Canvas>, id: Id): (r: Option<nat>)
    ensures r.Some? ==> r.value < |cs| && cs[r.value].id == id &&
                        forall j :: 0 <= j < r.value ==> cs[j].id != id
    ensures r.None? <==> id !in IdsOf(cs)
  {
    if cs == [] then None
    else if cs[0].id == id then Some(0)
    else
      match RootIndex(cs[1..], id)
      case None => None
      case Some(k) => Some(k + 1)
  }

  /** The folder `createNewFolder` builds around a canvas. */
  function NewFolder(folderId: Id, name: string, c: Canvas): (r: Canvas)
    ensures r.isFolder && r.children == [c] && r.name == name && r.id == folderId && r.items == []
  {
    MakeCanvas(folderId, name, isFolder := true).(children := [c])
  }

  /** `createNewFolder(with:)`: a root canvas is taken out and a folder
      holding just it goes back in its place; a canvas not at the root
      is left where it is. */
  function WithNewFolder(cs: seq<Canvas>, canvasId: Id, folderId: Id, name: string): seq<Canvas>
  {
    match RootIndex(cs, canvasId)
    case None => cs
    case Some(i) => cs[..i] + [NewFolder(folderId, name, cs[i])] + cs[i + 1..]
  }

  /** The root list keeps its length; the canvas's slot now holds a folder
      whose only child is that canvas; every other root is as it was. */
  lemma NewFolderShape(cs: seq<Canvas>, canvasId: Id, folderId: Id, name: string)
    ensures RootIndex(cs, canvasId).None? ==> WithNewFolder(cs, canvasId, folderId, name) == cs
    ensures RootIndex(cs, canvasId).Some? ==>
              var i := RootIndex(cs, canvasId).value;
              var r := WithNewFolder(cs, canvasId, folderId, name);
              && |r| == |cs|
              && r[i].isFolder && r[i].name == name && r[i].id == folderId && r[i].children == [cs[i]]
              && forall j :: 0 <= j < |cs| && j != i ==> r[j] == cs[j]
  {
    if RootIndex(cs, canvasId).Some? {
      var i := RootIndex(cs, canvasId).value;
      var f := NewFolder(folderId, name, cs[i]);
      var r := cs[..i] + [f] + cs[i + 1..];
      assert WithNewFolder(cs, canvasId, folderId, name) == r;
      assert r[i] == f;
      forall j | 0 <= j < |cs| && j != i ensures r[j] == cs[j] {
        if j < i {
          assert r[j] == cs[..i][j];
        } else {
          assert r[j] == cs[i + 1..][j - i - 1];
        }
      }
    }
  }

  /** The ids of a forest with one root singled out. */
  lemma TreeIdsSplice(a: seq<Canvas>, x: Canvas, b: seq<Canvas>)
    ensures TreeIds(a + [x] + b) == TreeIds(a) + ([x.id] + TreeIds(x.children)) + TreeIds(b)
  {
    TreeIdsConcat(a + [x], b);
    TreeIdsConcat(a, [x]);
    TreeIdsOne(x);
  }

  /** The pre-order of a forest with one root singled out. */
  lemma PreOrderSplice(a: seq<Canvas>, x: Canvas, b: seq<Canvas>)
    ensures PreOrder(a + [x] + b) == PreOrder(a) + ([x] + PreOrder(x.children)) + PreOrder(b)
  {
    PreOrderConcat(a + [x], b);
    PreOrderConcat(a, [x]);
    PreOrderOne(x);
  }

  /** The root list `createNewFolder` leaves, cut at the canvas's slot. */
  lemma NewFolderSplit(cs: seq<Canvas>, canvasId: Id, folderId: Id, name: string)
    requires RootIndex(cs, canvasId).Some?
    ensures var i := RootIndex(cs, canvasId).value;
            && cs == cs[..i] + [cs[i]] + cs[i + 1..]
            && WithNewFolder(cs, canvasId, folderId, name) == cs[..i] + [NewFolder(folderId, name, cs[i])] + cs[i + 1..]
  {
    var i := RootIndex(cs, canvasId).value;
    assert cs == cs[..i] + [cs[i]] + cs[i + 1..];
  }

  /** Wrapping one root in a folder adds the folder's id to the tree's ids. */
  lemma WrapIds(a: seq<Canvas>, x: Canvas, f: Canvas, b: seq<Canvas>)
    requires f.children == [x]
    ensures multiset(TreeIds(a + [f] + b)) == multiset(TreeIds(a + [x] + b)) + multiset{f.id}
  {
    TreeIdsSplice(a, x, b);
    TreeIdsSplice(a, f, b);
    TreeIdsOne(x);
    var ia, ix, ib := TreeIds(a), TreeIds([x]), TreeIds(b);
    assert TreeIds(a + [x] + b) == ia + ix + ib;
    assert TreeIds(a + [f] + b) == ia + ([f.id] + ix) + ib;
  }

  /** Wrapping one root in a folder adds the folder's name to the folder names. */
  lemma WrapNames(a: seq<Canvas>, x: Canvas, f: Canvas, b: seq<Canvas>)
    requires f.children == [x] && f.isFolder
    ensures FolderNames(a + [f] + b) == FolderNames(a + [x] + b) + {f.name}
  {
    PreOrderSplice(a, x, b);
    PreOrderSplice(a, f, b);
    PreOrderOne(x);
    var pa, px, pb := PreOrder(a), PreOrder([x]), PreOrder(b);
    assert PreOrder(a + [x] + b) == pa + px + pb;
    assert PreOrder(a + [f] + b) == pa + ([f] + px) + pb;
    FolderNamesOfConcat(pa + px, pb);
    FolderNamesOfConcat(pa, px);
    FolderNamesOfConcat(pa + ([f] + px), pb);
    FolderNamesOfConcat(pa, [f] + px);
    FolderNamesOfConcat([f], px);
    FolderNamesOfOne(f);
  }

  /** The tree gains the folder and nothing else. */
  lemma NewFolderIds(cs: seq<Canvas>, canvasId: Id, folderId: Id, name: string)
    requires RootIndex(cs, canvasId).Some?
    ensures multiset(TreeIds(WithNewFolder(cs, canvasId, folderId, name))) == multiset(TreeIds(cs)) + multiset{folderId}
  {
    var i := RootIndex(cs, canvasId).value;
    NewFolderSplit(cs, canvasId, folderId, name);
    WrapIds(cs[..i], cs[i], NewFolder(folderId, name, cs[i]), cs[i + 1..]);
  }

  /** With a fresh folder id, ids stay unique. */
  lemma NewFolderUnique(cs: seq<Canvas>, canvasId: Id, folderId: Id, name: string)
    requires RootIndex(cs, canvasId).Some? && UniqueIds(cs) && folderId !in TreeIds(cs)
    ensures UniqueIds(WithNewFolder(cs, canvasId, folderId, name))
  {
    var r := WithNewFolder(cs, canvasId, folderId, name);
    NewFolderIds(cs, canvasId, folderId, name);
    DistinctCount(TreeIds(cs));
    DistinctCount(TreeIds(r));
    forall x ensures multiset(TreeIds(r))[x] <= 1 {
      if x == folderId {
        assert multiset(TreeIds(cs))[x] == 0;
      }
    }
  }

  /** The folder names gain exactly the new folder's name. */
  lemma NewFolderNames(cs: seq<Canvas>, canvasId: Id, folderId: Id, name: string)
    requires RootIndex(cs, canvasId).Some?
    ensures FolderNames(WithNewFolder(cs, canvasId, folderId, name)) == FolderNames(cs) + {name}
  {
    var i := RootIndex(cs, canvasId).value;
    NewFolderSplit(cs, canvasId, folderId, name);
    WrapNames(cs[..i], cs[i], NewFolder(folderId, name, cs[i]), cs[i + 1..]);
  }

  // ----- deleteCanvas -----

  /** The predicate `canvases.removeAll { $0.id == id }` keeps. */
  function OtherCanvas(id: Id): Canvas -> bool
  {
    (c: Canvas) => c.id != id
  }

  /** `deleteCanvas`: every root with the id goes, with its subtree;
      nothing below the roots is looked at. */
  function DeletedAtRoot(cs: seq<Canvas>, id: Id): seq<Canvas>
  {
    Filter(cs, OtherCanvas(id))
  }

  lemma {:induction false} TreeIdsFilterSplit(cs: seq<Canvas>, keep: Canvas -> bool, drop: Canvas -> bool)
    requires forall c :: drop(c) == !keep(c)
    ensures multiset(TreeIds(Filter(cs, keep))) + multiset(TreeIds(Filter(cs, drop))) == multiset(TreeIds(cs))
  {
    if cs != [] {
      var head, rest := [cs[0]], cs[1..];
      assert cs == head + rest;
      TreeIdsFilterSplit(rest, keep, drop);
      TreeIdsFilterOne(cs[0], keep, drop);
      FilterConcat(head, rest, keep);
      FilterConcat(head, rest, drop);
      TreeIdsConcat(Filter(head, keep), Filter(rest, keep));
      TreeIdsConcat(Filter(head, drop), Filter(rest, drop));
      TreeIdsConcat(head, rest);
    }
  }

  lemma TreeIdsFilterOne(c: Canvas, keep: Canvas -> bool, drop: Canvas -> bool)
    requires drop(c) == !keep(c)
    ensures multiset(TreeIds(Filter([c], keep))) + multiset(TreeIds(Filter([c], drop))) == multiset(TreeIds([c]))
  {
    if keep(c) {
      assert Filter([c], keep) == [c] && Filter([c], drop) == [];
    } else {
      assert Filter([c], drop) == [c] && Filter([c], keep) == [];
    }
  }

  /** Deleting keeps exactly the other roots, in order, and leaves a tree
      whose ids, with the deleted subtrees', are the old ones; a canvas
      that is not a root is not deleted at all. */
  lemma DeleteSpec(cs: seq<Canvas>, id: Id)
    ensures forall c :: c in DeletedAtRoot(cs, id) <==> c in cs && c.id != id
    ensures multiset(TreeIds(DeletedAtRoot(cs, id))) + multiset(TreeIds(Filter(cs, HasId(id)))) == multiset(TreeIds(cs))
    ensures id !in IdsOf(cs) ==> DeletedAtRoot(cs, id) == cs
  {
    TreeIdsFilterSplit(cs, OtherCanvas(id), HasId(id));
  }

  /** With unique ids, deleting a root removes its id from the tree. */
  lemma DeleteRemovesId(cs: seq<Canvas>, id: Id)
    requires UniqueIds(cs) && id in IdsOf(cs)
    ensures id !in TreeIds(DeletedAtRoot(cs, id))
  {
    var gone := Filter(cs, HasId(id));
    TreeIdsFilterSplit(cs, OtherCanvas(id), HasId(id));
    DeletedRootInTree(cs, id);
    DistinctCount(TreeIds(cs));
    var kept, removed, all := multiset(TreeIds(DeletedAtRoot(cs, id))), multiset(TreeIds(gone)), multiset(TreeIds(cs));
    assert kept + removed == all && removed[id] >= 1 && all[id] <= 1;
    assert kept[id] == 0;
  }

  /** A root with the id is among the deleted roots, so its id is in the
      deleted subtrees. */
  lemma DeletedRootInTree(cs: seq<Canvas>, id: Id)
    requires id in IdsOf(cs)
    ensures id in TreeIds(Filter(cs, HasId(id)))
  {
    var gone := Filter(cs, HasId(id));
    var i :| 0 <= i < |cs| && IdsOf(cs)[i] == id;
    assert cs[i] in gone;
    var j :| 0 <= j < |gone| && gone[j] == cs[i];
    assert IdsOf(gone)[j] == id;
    RootIdsInTree(gone);
  }
}
