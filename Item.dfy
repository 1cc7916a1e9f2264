/** The item record of MBDump/Models/Item.swift, with the fields the store
    also reads and writes (title, completion flag, notes), the item kinds
    of MBDump/Models.swift, and the content classification that
    `DataStore.updateItem` applies on every edit. */
module ItemModel {
  import opened Base

  /** `ItemType`: how an item's content is interpreted. */
  datatype ItemType = Text | Link | File

  /** `Item`. `kind` is Swift's `type` field. `id` is a `let` in Swift; every
      operation below that produces an item from an item keeps it. */
  datatype Item = Item(
    id: Id,
    content: string,
    kind: ItemType,
    createdAt: Date,
    title: Option<string>,
    isCompleted: bool,
    notes: Option<string>)

  /** `Item.init(id:content:type:createdAt:)`; the store-only fields start
      empty: no title, not completed, no notes. */
  function NewItem(id: Id, content: string, kind: ItemType, createdAt: Date): (r: Item)
    ensures r.id == id && r.content == content && r.kind == kind && r.createdAt == createdAt
    ensures r.title == None && !r.isCompleted && r.notes == None
  {
    Item(id, content, kind, createdAt, None, false, None)
  }

  /** What the list shows for an item: for a link whose content parses as a
      URL with a host, the host; otherwise the content itself. `hostOf`
      stands for Foundation's `URL(string:)?.host`, which is not modelled. */
  function DisplayText(kind: ItemType, content: string, hostOf: string -> Option<string>): (r: string)
    ensures kind != Link ==> r == content
    ensures r != content ==> kind == Link && hostOf(content) == Some(r)
  {
    if kind == Link && hostOf(content).Some? then hostOf(content).value else content
  }

  /** `Item.displayContent` */
  function DisplayContent(item: Item, hostOf: string -> Option<string>): (r: string)
    ensures item.kind == Text || item.kind == File ==> r == item.content
    ensures item.kind == Link && hostOf(item.content).None? ==> r == item.content
    ensures item.kind == Link && hostOf(item.content).Some? ==> r == hostOf(item.content).value
  {
    DisplayText(item.kind, item.content, hostOf)
  }

  /** The type `updateItem` derives from new content: an http(s) scheme
      makes a link, a leading slash or tilde a file path, anything else text. */
  function Classify(content: string): (r: ItemType)
    ensures r == Link <==> StartsWith(content, "http://") || StartsWith(content, "https://")
    ensures r == File ==> |content| > 0 && (content[0] == '/' || content[0] == '~')
    ensures r == Text ==> !(|content| > 0 && (content[0] == '/' || content[0] == '~'))
  {
    if StartsWith(content, "http://") || StartsWith(content, "https://") then Link
    else if StartsWith(content, "/") || StartsWith(content, "~") then File
    else Text
  }

  /** A link's content always starts with "http". */
  lemma LinkContentStartsWithHttp(content: string)
    requires Classify(content) == Link
    ensures StartsWith(content, "http")
  {
    if StartsWith(content, "http://") {
      assert content[..4] == content[..7][..4];
    } else {
      assert content[..4] == content[..8][..4];
    }
  }

  /** The edits the store makes to a single item (the bodies of the update
      closures in DataStore.swift). */
  datatype ItemChange =
    | ToggleCompleted
    | SetNotes(notes: Option<string>)
    | SetContent(content: string)
    | SetTitle(title: Option<string>)

  /** Apply one change. Each change sets its own field and no other; no
      change touches `id` or `createdAt`, and content and type only ever
      change together, the type derived from the content. */
  function ApplyChange(ch: ItemChange, item: Item): (r: Item)
    ensures r.id == item.id && r.createdAt == item.createdAt
    ensures r.isCompleted == (if ch.ToggleCompleted? then !item.isCompleted else item.isCompleted)
    ensures ch.SetContent? ==> r.content == ch.content && r.kind == Classify(ch.content)
    ensures !ch.SetContent? ==> r.content == item.content && r.kind == item.kind
    ensures r.notes == (if ch.SetNotes? then ch.notes else item.notes)
    ensures r.title == (if ch.SetTitle? then ch.title else item.title)
  {
    match ch
    case ToggleCompleted => item.(isCompleted := !item.isCompleted)
    case SetNotes(n) => item.(notes := n)
    case SetContent(c) => item.(content := c, kind := Classify(c))
    case SetTitle(t) => item.(title := t)
  }

  /** Toggling completion twice gives back the original item. */
  lemma ToggleTwice(item: Item)
    ensures ApplyChange(ToggleCompleted, ApplyChange(ToggleCompleted, item)) == item
  {
  }
}
