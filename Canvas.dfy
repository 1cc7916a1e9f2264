/** The canvas tree node of MBDump/Models/Canvas.swift: its kinds, its
    initialiser, its own depth-first search, and the tolerant decoding
    that lets documents written before `children`, `isFolder`, `type` and
    `tags` existed still load. */
module CanvasModel {
  import opened Base
  import opened ItemModel

  /** `CanvasType` */
  datatype CanvasType = Todo | Articles

  /** The enum's raw value, as stored in the persisted document. */
  function RawValue(t: CanvasType): string
  {
    match t
    case Todo => "todo"
    case Articles => "articles"
  }

  /** `CanvasType(rawValue:)` */
  function ParseCanvasType(s: string): (r: Option<CanvasType>)
    ensures forall t :: r == Some(t) <==> s == RawValue(t)
  {
    if s == "todo" then Some(Todo)
    else if s == "articles" then Some(Articles)
    else None
  }

  function UpperCase(c: char): char
  {
    if 'a' <= c <= 'z' then (c as int - 32) as char else c
  }

  function Capitalized(s: string): string
  {
    if s == [] then [] else [UpperCase(s[0])] + s[1..]
  }

  /** `CanvasType.displayName`: the raw value with its first letter in capitals. */
  function DisplayName(t: CanvasType): (r: string)
    ensures r == Capitalized(RawValue(t))
  {
    match t
    case Todo => "Todo"
    case Articles => "Articles"
  }

  /** `Canvas`. `kind` is Swift's `type` field. A folder is a canvas with
      `isFolder` set; nothing stops any canvas from having children. */
  datatype Canvas = Canvas(
    id: Id,
    name: string,
    items: seq<Item>,
    children: seq<Canvas>,
    isFolder: bool,
    kind: Option<CanvasType>,
    tags: seq<string>)
  {
    /** `childrenForList`: the children when this is a folder or has any, else nil. */
    function ChildrenForList(): (r: Option<seq<Canvas>>)
      ensures r.Some? <==> isFolder || |children| > 0
      ensures r.Some? ==> r.value == children
    {
      if isFolder || |children| > 0 then Some(children) else None
    }

    /** `findCanvas(byId:)`: this node on an id match, otherwise the first
        match found depth-first among the children: the first node of this
        subtree in pre-order that carries the id. */
    function Find(id: Id): (r: Option<Canvas>)
      ensures r == FirstWithId(PreOrder([this]), id)
    {
      PreOrderOne(this);
      if this.id == id then Some(this) else FindAmong(children, id)
    }
  }

  /** The `for child in children` loop of `findCanvas(byId:)`. */
  function FindAmong(cs: seq<Canvas>, id: Id): (r: Option<Canvas>)
    ensures r == FirstWithId(PreOrder(cs), id)
  {
    if cs == [] then None
    else
      var found := cs[0].Find(id);
      assert cs == [cs[0]] + cs[1..];
      PreOrderConcat([cs[0]], cs[1..]);
      FirstWithIdConcat(PreOrder([cs[0]]), PreOrder(cs[1..]), id);
      if found.Some? then found else FindAmong(cs[1..], id)
  }

  /** The memberwise `init`, with Swift's default arguments. */
  function MakeCanvas(id: Id, name: string, items: seq<Item> := [], children: seq<Canvas> := [],
                      isFolder: bool := false, kind: Option<CanvasType> := None,
                      tags: seq<string> := []): (r: Canvas)
    ensures r.id == id && r.name == name && r.items == items && r.children == children
    ensures r.isFolder == isFolder && r.kind == kind && r.tags == tags
  {
    Canvas(id, name, items, children, isFolder, kind, tags)
  }

  /** Every node of a forest, each before its descendants, siblings in order. */
  ghost function PreOrder(cs: seq<Canvas>): seq<Canvas>
  {
    if cs == [] then [] else [cs[0]] + PreOrder(cs[0].children) + PreOrder(cs[1..])
  }

  lemma PreOrderOne(c: Canvas)
    ensures PreOrder([c]) == [c] + PreOrder(c.children)
  {
    assert [c][1..] == [];
  }

  lemma {:induction false} PreOrderConcat(a: seq<Canvas>, b: seq<Canvas>)
    ensures PreOrder(a + b) == PreOrder(a) + PreOrder(b)
  {
    if a == [] {
      assert a + b == b;
    } else {
      assert (a + b)[0] == a[0] && (a + b)[1..] == a[1..] + b;
      PreOrderConcat(a[1..], b);
    }
  }

  /** The first node in `nodes` with the given id. */
  function FirstWithId(nodes: seq<Canvas>, id: Id): (r: Option<Canvas>)
    ensures r.None? <==> forall k :: 0 <= k < |nodes| ==> nodes[k].id != id
    ensures r.Some? ==> exists k :: 0 <= k < |nodes| && nodes[k] == r.value && r.value.id == id &&
                                    forall j :: 0 <= j < k ==> nodes[j].id != id
  {
    if nodes == [] then None
    else if nodes[0].id == id then Some(nodes[0])
    else
      FirstWithId(nodes[1..], id)
  }

  lemma {:induction false} FirstWithIdConcat(a: seq<Canvas>, b: seq<Canvas>, id: Id)
    ensures FirstWithId(a + b, id) == if FirstWithId(a, id).Some? then FirstWithId(a, id) else FirstWithId(b, id)
  {
    if a == [] {
      assert a + b == b;
    } else {
      assert (a + b)[0] == a[0] && (a + b)[1..] == a[1..] + b;
      FirstWithIdConcat(a[1..], b, id);
    }
  }

  // ----- The persisted form -----

  /** One key of a persisted canvas: absent, explicitly null, a value of
      the expected JSON type, or a value of some other type. */
  datatype Field<T> = Missing | Null | Present(value: T) | Mismatch

  /** `DecodingError`, reduced to its kind and the key it concerns. */
  datatype DecodeError = KeyNotFound(key: string) | ValueNotFound(key: string) | TypeMismatch(key: string)

  datatype Decoded<T> = Decoded(value: T) | Failed(error: DecodeError)

  /** One canvas as it sits in the document. `items` and `children` hold
      values the nested decoders produced; their own decoding is not modelled. */
  datatype CanvasRecord = CanvasRecord(
    id: Field<Id>,
    name: Field<string>,
    items: Field<seq<Item>>,
    children: Field<seq<Canvas>>,
    isFolder: Field<bool>,
    kind: Field<string>,
    tags: Field<seq<string>>)

  /** `container.decode(_:forKey:)`: the key must hold a value of the type. */
  function Required<T>(f: Field<T>, key: string): (r: Decoded<T>)
    ensures r.Decoded? <==> f.Present?
    ensures r.Decoded? ==> r.value == f.value
  {
    match f
    case Present(v) => Decoded(v)
    case Missing => Failed(KeyNotFound(key))
    case Null => Failed(ValueNotFound(key))
    case Mismatch => Failed(TypeMismatch(key))
  }

  /** `try container.decodeIfPresent(_:forKey:) ?? default` */
  function IfPresent<T>(f: Field<T>, key: string, default: T): (r: Decoded<T>)
    ensures r.Decoded? <==> !f.Mismatch?
    ensures r.Decoded? ==> r.value == (if f.Present? then f.value else default)
  {
    match f
    case Present(v) => Decoded(v)
    case Missing => Decoded(default)
    case Null => Decoded(default)
    case Mismatch => Failed(TypeMismatch(key))
  }

  /** The `type` key: tried as the enum, then as a string mapped through
      the raw values; every failure is swallowed and yields no type. */
  function DecodeKind(f: Field<string>): (r: Option<CanvasType>)
    ensures f.Present? ==> r == ParseCanvasType(f.value)
    ensures !f.Present? ==> r == None
  {
    match f
    case Present(s) => ParseCanvasType(s)
    case _ => None
  }

  /** `Canvas.init(from:)` */
  function Decode(rec: CanvasRecord): (r: Decoded<Canvas>)
    ensures r.Decoded? ==> rec.id == Present(r.value.id) && rec.name == Present(r.value.name) &&
                           rec.items == Present(r.value.items)
  {
    match Required(rec.id, "id")
    case Failed(e) => Failed(e)
    case Decoded(id) =>
      match Required(rec.name, "name")
      case Failed(e) => Failed(e)
      case Decoded(name) =>
        match Required(rec.items, "items")
        case Failed(e) => Failed(e)
        case Decoded(items) =>
          match IfPresent(rec.children, "children", [])
          case Failed(e) => Failed(e)
          case Decoded(children) =>
            match IfPresent(rec.isFolder, "isFolder", false)
            case Failed(e) => Failed(e)
            case Decoded(isFolder) =>
              var kind := DecodeKind(rec.kind);
              match IfPresent(rec.tags, "tags", [])
              case Failed(e) => Failed(e)
              case Decoded(tags) => Decoded(Canvas(id, name, items, children, isFolder, kind, tags))
  }

  /** The synthesised `encode(to:)` over `CodingKeys`: every key written,
      except that a nil `type` is left out. */
  function Encode(c: Canvas): (r: CanvasRecord)
    ensures r.id.Present? && r.name.Present? && r.items.Present? && r.children.Present?
    ensures r.isFolder.Present? && r.tags.Present? && (r.kind.Present? <==> c.kind.Some?)
  {
    CanvasRecord(Present(c.id), Present(c.name), Present(c.items), Present(c.children),
                 Present(c.isFolder), if c.kind.Some? then Present(RawValue(c.kind.value)) else Missing,
                 Present(c.tags))
  }

  /** Writing a canvas and reading it back gives the same canvas. */
  lemma DecodeEncode(c: Canvas)
    ensures Decode(Encode(c)) == Decoded(c)
  {
    if c.kind.Some? {
      assert ParseCanvasType(RawValue(c.kind.value)) == c.kind;
    }
  }

  /** A record from before `children`, `isFolder`, `type` and `tags` existed
      decodes with no children, not a folder, no type and no tags. */
  lemma DecodeLegacyRecord(id: Id, name: string, items: seq<Item>)
    ensures Decode(CanvasRecord(Present(id), Present(name), Present(items), Missing, Missing, Missing, Missing))
            == Decoded(MakeCanvas(id, name, items))
  {
  }

  /** Decoding fails exactly when a required key lacks a value or an
      optional key holds a value of the wrong type; the `type` key never
      makes it fail. */
  lemma DecodeFailsExactly(rec: CanvasRecord)
    ensures Decode(rec).Failed? <==>
              !rec.id.Present? || !rec.name.Present? || !rec.items.Present? ||
              rec.children.Mismatch? || rec.isFolder.Mismatch? || rec.tags.Mismatch?
  {
  }

  /** Present optional keys are carried into the canvas; absent or null
      ones take their defaults; an absent or unknown `type` gives no type. */
  lemma DecodeDefaults(rec: CanvasRecord)
    requires Decode(rec).Decoded?
    ensures var c := Decode(rec).value;
            && (rec.children.Present? ==> c.children == rec.children.value)
            && (!rec.children.Present? ==> c.children == [])
            && (rec.isFolder.Present? ==> c.isFolder == rec.isFolder.value)
            && (!rec.isFolder.Present? ==> !c.isFolder)
            && (rec.tags.Present? ==> c.tags == rec.tags.value)
            && (!rec.tags.Present? ==> c.tags == [])
            && (!rec.kind.Present? ==> c.kind == None)
            && (rec.kind.Present? && rec.kind.value != "todo" && rec.kind.value != "articles" ==> c.kind == None)
            && (rec.kind == Present("todo") ==> c.kind == Some(Todo))
            && (rec.kind == Present("articles") ==> c.kind == Some(Articles))
  {
  }
}
