/**
 * The bookmark tree store (store/bookmark-tree.ts): a list of top-level tree
 * items plus the drag state, and the helper walks it is built from.
 *
 * The program mutates nested arrays in place while it builds a new top-level
 * array. The model keeps every tree as a value (`seq<Node>`) and states what
 * each helper returns; where in-place mutation leaks into the old state (an
 * aborted move) that effect is written out explicitly (see DetachedView).
 */
module TreeStore {
  import opened Wrappers
  import opened TreeTypes

  // ---------------------------------------------------------------------------
  // Drag state
  // ---------------------------------------------------------------------------

  /** `"before" | "after" | "inside" | null`; Unset also stands for any other value. */
  datatype DropPosition = Before | After | Inside | Unset

  datatype DragState = DragState(
    isDragging: bool,
    sourceId: Option<string>,
    targetId: Option<string>,
    position: DropPosition,
    sourceType: Option<Kind>,
    parentId: Option<string>)

  /** `Partial<DragState>`: None for a key that is not supplied. */
  datatype DragStateUpdate = DragStateUpdate(
    isDragging: Option<bool>,
    sourceId: Option<Option<string>>,
    targetId: Option<Option<string>>,
    position: Option<DropPosition>,
    sourceType: Option<Option<Kind>>,
    parentId: Option<Option<string>>)

  const InitialDragState := DragState(false, None, None, Unset, None, None)

  /** An update that supplies no key. */
  const NoDragChange := DragStateUpdate(None, None, None, None, None, None)

  /** `{ ...state.dragState, ...updates }`: the supplied keys win, the rest are kept. */
  function ApplyDragUpdate(s: DragState, u: DragStateUpdate): (r: DragState)
    ensures u.isDragging.Some? ==> r.isDragging == u.isDragging.value
    ensures u.isDragging.None? ==> r.isDragging == s.isDragging
    ensures u.sourceId.Some? ==> r.sourceId == u.sourceId.value
    ensures u.sourceId.None? ==> r.sourceId == s.sourceId
    ensures u.targetId.Some? ==> r.targetId == u.targetId.value
    ensures u.targetId.None? ==> r.targetId == s.targetId
    ensures u.position.Some? ==> r.position == u.position.value
    ensures u.position.None? ==> r.position == s.position
    ensures u.sourceType.Some? ==> r.sourceType == u.sourceType.value
    ensures u.sourceType.None? ==> r.sourceType == s.sourceType
    ensures u.parentId.Some? ==> r.parentId == u.parentId.value
    ensures u.parentId.None? ==> r.parentId == s.parentId
  {
    DragState(
      u.isDragging.GetOr(s.isDragging),
      u.sourceId.GetOr(s.sourceId),
      u.targetId.GetOr(s.targetId),
      u.position.GetOr(s.position),
      u.sourceType.GetOr(s.sourceType),
      u.parentId.GetOr(s.parentId))
  }

  // ---------------------------------------------------------------------------
  // Item updates (`TreeItemUpdates`)
  // ---------------------------------------------------------------------------

  /**
   * The keys an update may carry; None for a key that is absent. `tag` is the
   * `type` key: FolderKind for folder updates, BookmarkKind for bookmark
   * updates, None for the untagged common updates.
   */
  datatype Update = Update(
    tag: Option<Kind>,
    name: Option<string>,
    position: Option<int>,
    parentId: Option<Option<string>>,
    isExpanded: Option<bool>,
    url: Option<string>,
    icon: Option<string>,
    description: Option<string>,
    tags: Option<seq<string>>)

  /**
   * `Object.assign(item, updates)` for an update whose tag (if any) matches the
   * item: every supplied key of the item's variant is overwritten.
   */
  function Merge(n: Node, u: Update): (r: Node)
    ensures r.Tag() == n.Tag() && r.id == n.id
    ensures r.name == u.name.GetOr(n.name)
    ensures r.position == u.position.GetOr(n.position)
    ensures r.parentId == u.parentId.GetOr(n.parentId)
    ensures r.Folder? ==> r.children == n.children && r.isExpanded == u.isExpanded.GetOr(n.isExpanded)
    ensures r.Bookmark? ==> r.url == u.url.GetOr(n.url)
    ensures r.Bookmark? && u.icon.Some? ==> r.icon == u.icon
    ensures r.Bookmark? && u.icon.None? ==> r.icon == n.icon
    ensures r.Bookmark? && u.description.Some? ==> r.description == u.description
    ensures r.Bookmark? && u.description.None? ==> r.description == n.description
    ensures r.Bookmark? && u.tags.Some? ==> r.tags == u.tags
    ensures r.Bookmark? && u.tags.None? ==> r.tags == n.tags
  {
    match n
    case Folder(id, name, position, parentId, isExpanded, children) =>
      Folder(id, u.name.GetOr(name), u.position.GetOr(position), u.parentId.GetOr(parentId),
             u.isExpanded.GetOr(isExpanded), children)
    case Bookmark(id, name, position, parentId, url, icon, description, tags) =>
      Bookmark(id, u.name.GetOr(name), u.position.GetOr(position), u.parentId.GetOr(parentId),
               u.url.GetOr(url),
               if u.icon.Some? then u.icon else icon,
               if u.description.Some? then u.description else description,
               if u.tags.Some? then u.tags else tags)
  }

  /** The store applies an update only when its `type` matches the item or it has none. */
  predicate Accepts(n: Node, u: Update) {
    u.tag.None? || u.tag.value == n.Tag()
  }

  // ---------------------------------------------------------------------------
  // Depth-first views of a tree
  // ---------------------------------------------------------------------------

  /** All items of a tree in depth-first pre-order. */
  function Nodes(items: seq<Node>): seq<Node>
    decreases items
  {
    if items == [] then []
    else [items[0]] + (if items[0].Folder? then Nodes(items[0].children) else []) + Nodes(items[1..])
  }

  function IdsOf(ns: seq<Node>): seq<string> {
    seq(|ns|, i requires 0 <= i < |ns| => ns[i].id)
  }

  /** Every id of a tree, in depth-first pre-order. */
  function Ids(items: seq<Node>): seq<string>
    decreases items
  {
    if items == [] then []
    else [items[0].id] + (if items[0].Folder? then Ids(items[0].children) else []) + Ids(items[1..])
  }

  /** No id occurs twice anywhere in the tree. */
  predicate UniqueIds(items: seq<Node>) {
    var ids := Ids(items);
    forall i, j :: 0 <= i < j < |ids| ==> ids[i] != ids[j]
  }

  /** Reference definition of a lookup: the first item with that id in a flat list. */
  function FirstWithId(ns: seq<Node>, id: string): Option<Node> {
    if ns == [] then None
    else if ns[0].id == id then Some(ns[0])
    else FirstWithId(ns[1..], id)
  }

  /** findItemRecursive, as a function: each item, then its subtree, then the next item. */
  function Find(items: seq<Node>, id: string): Option<Node>
    decreases items
  {
    if items == [] then None
    else if items[0].id == id then Some(items[0])
    else if items[0].Folder? && Find(items[0].children, id).Some? then Find(items[0].children, id)
    else Find(items[1..], id)
  }

  /** `items.findIndex(item => item.id === id)` on one level. */
  function IndexOfId(items: seq<Node>, id: string): (k: int)
    ensures -1 <= k < |items|
    ensures k >= 0 ==> items[k].id == id && forall j :: 0 <= j < k ==> items[j].id != id
    ensures k == -1 <==> forall j :: 0 <= j < |items| ==> items[j].id != id
  {
    if items == [] then -1
    else if items[0].id == id then 0
    else
      var k := IndexOfId(items[1..], id);
      if k == -1 then -1 else k + 1
  }

  /**
   * removeItemFromParent, as a function: the tree without the item and the
   * item that was removed. It looks at the current level first and only then
   * descends into the folders, in order.
   */
  function RemoveFirst(items: seq<Node>, id: string): (seq<Node>, Option<Node>)
    decreases items, 1
  {
    var k := IndexOfId(items, id);
    if k >= 0 then (items[..k] + items[k + 1..], Some(items[k]))
    else RemoveInFolders(items, id)
  }

  function RemoveInFolders(items: seq<Node>, id: string): (seq<Node>, Option<Node>)
    decreases items, 0
  {
    if items == [] then ([], None)
    else
      var inner := if items[0].Folder? then RemoveFirst(items[0].children, id) else ([], None);
      if inner.1.Some? && items[0].Folder? then
        ([items[0].(children := inner.0)] + items[1..], inner.1)
      else
        var rest := RemoveInFolders(items[1..], id);
        ([items[0]] + rest.0, rest.1)
  }

  /**
   * updatePositions: every item gets its index as `position` and the id of the
   * enclosing folder (None at the top) as `parentId`, all the way down.
   */
  function RenumberFrom(items: seq<Node>, parentId: Option<string>, start: int): (r: seq<Node>)
    ensures |r| == |items|
    decreases items, 0
  {
    if items == [] then []
    else
      [Placed(items[0], start, parentId)] + RenumberFrom(items[1..], parentId, start + 1)
  }

  /** One item renumbered: its own position and parentId, and its children's. */
  function Placed(n: Node, index: int, parentId: Option<string>): (r: Node)
    ensures r.id == n.id && r.Tag() == n.Tag()
    ensures r.position == index && r.parentId == parentId
    decreases n, 1
  {
    match n
    case Folder(id, name, _, _, isExpanded, children) =>
      Folder(id, name, index, parentId, isExpanded, RenumberFrom(children, Some(id), 0))
    case Bookmark(id, name, _, _, url, icon, description, tags) =>
      Bookmark(id, name, index, parentId, url, icon, description, tags)
  }

  function Renumber(items: seq<Node>, parentId: Option<string>): seq<Node> {
    RenumberFrom(items, parentId, 0)
  }

  /** Every item's position is its index and its parentId names its folder, recursively. */
  predicate Positioned(items: seq<Node>, parentId: Option<string>)
    decreases items
  {
    forall i :: 0 <= i < |items| ==>
      && items[i].position == i
      && items[i].parentId == parentId
      && (items[i].Folder? ==> Positioned(items[i].children, Some(items[i].id)))
  }

  /** The same tree up to `position` and `parentId`. */
  predicate SameShape(a: seq<Node>, b: seq<Node>)
    decreases a
  {
    |a| == |b| &&
    forall i :: 0 <= i < |a| ==>
      && a[i].Tag() == b[i].Tag()
      && a[i].id == b[i].id
      && a[i].name == b[i].name
      && (a[i].Folder? ==> a[i].isExpanded == b[i].isExpanded && SameShape(a[i].children, b[i].children))
      && (a[i].Bookmark? ==> a[i].url == b[i].url && a[i].icon == b[i].icon
                              && a[i].description == b[i].description && a[i].tags == b[i].tags)
  }

  /** The tree with the node Find would return replaced by `m`. */
  function ReplaceFirst(items: seq<Node>, id: string, m: Node): seq<Node>
    decreases items
  {
    if items == [] then []
    else if items[0].id == id then [m] + items[1..]
    else if items[0].Folder? && Find(items[0].children, id).Some? then
      [items[0].(children := ReplaceFirst(items[0].children, id, m))] + items[1..]
    else [items[0]] + ReplaceFirst(items[1..], id, m)
  }

  // ---------------------------------------------------------------------------
  // Array splice and the insertion index
  // ---------------------------------------------------------------------------

  /** The insertion point `Array.prototype.splice` uses for a start index. */
  function ClampStart(len: nat, start: int): (k: nat)
    ensures k <= len
    ensures 0 <= start <= len ==> k == start
    ensures start > len ==> k == len
    ensures start < 0 ==> k == if len + start < 0 then 0 else len + start
  {
    if start < 0 then (if len + start < 0 then 0 else len + start)
    else if start > len then len
    else start
  }

  /** `s.splice(start, 0, x)`. */
  function SpliceInsert(s: seq<Node>, start: int, x: Node): (r: seq<Node>)
    ensures |r| == |s| + 1
    ensures r[ClampStart(|s|, start)] == x
    ensures r[..ClampStart(|s|, start)] == s[..ClampStart(|s|, start)]
    ensures r[ClampStart(|s|, start) + 1..] == s[ClampStart(|s|, start)..]
  {
    var k := ClampStart(|s|, start);
    s[..k] + [x] + s[k..]
  }

  /** getInsertIndex: one past the default index for "after", the default otherwise. */
  function GetInsertIndex(position: DropPosition, defaultIndex: int): (r: int)
    ensures position == After ==> r == defaultIndex + 1
    ensures position != After ==> r == defaultIndex
  {
    if position == After then defaultIndex + 1 else defaultIndex
  }

  // ---------------------------------------------------------------------------
  // moveItem, addItem, updateItem as functions of the tree
  // ---------------------------------------------------------------------------

  datatype MoveOutcome =
    | SourceMissing                  // `return state` before anything was touched
    | Aborted(visible: seq<Node>)    // `return state` after the source was detached
    | Moved(tree: seq<Node>)         // the new, renumbered tree

  /**
   * What the old state shows after an aborted move. The dragged item was spliced
   * out of a copy of the top-level array, but out of the folder's own
   * `children` array when it was nested, and that array is shared with the
   * old state.
   */
  function DetachedView(items: seq<Node>, sourceId: string): seq<Node> {
    if IndexOfId(items, sourceId) >= 0 then items else RemoveFirst(items, sourceId).0
  }

  /** The tree after placing `source` relative to the target, or None for an aborted move. */
  function Placement(detached: seq<Node>, source: Node, targetId: string, position: DropPosition): Option<seq<Node>> {
    match Find(detached, targetId)
    case None => None
    case Some(target) =>
      if position == Inside && target.Folder? then
        Some(ReplaceFirst(detached, targetId,
          target.(children := target.children + [source.WithParent(Some(target.id))])))
      else if Truthy(target.parentId) then
        match Find(detached, target.parentId.value)
        case None => None
        case Some(parent) =>
          if parent.Bookmark? then None
          else
            var k := IndexOfId(parent.children, targetId);
            var index := if position == Before then k else k + 1;
            Some(ReplaceFirst(detached, target.parentId.value,
              parent.(children := SpliceInsert(parent.children, index, source.WithParent(target.parentId)))))
      else
        var k := IndexOfId(detached, targetId);
        var index := if position == Before then k else k + 1;
        Some(SpliceInsert(detached, index, source.WithParent(target.parentId)))
  }

  /** moveItem, as a function of the tree. */
  function MoveSpec(items: seq<Node>, sourceId: string, targetId: Option<string>, position: DropPosition): MoveOutcome {
    match Find(items, sourceId)
    case None => SourceMissing
    case Some(source) =>
      Relocation(RemoveFirst(items, sourceId).0, DetachedView(items, sourceId), source, targetId, position)
  }

  /**
   * moveItem once the source is detached: to the top level when the target id
   * is falsy, otherwise into or beside the target; `visible` is what an
   * aborted move leaves in the old state.
   */
  function Relocation(detached: seq<Node>, visible: seq<Node>, source: Node, targetId: Option<string>,
                      position: DropPosition): MoveOutcome
  {
    if !Truthy(targetId) then
      Moved(Renumber(SpliceInsert(detached, GetInsertIndex(position, 0), source.WithParent(None)), None))
    else
      match Placement(detached, source, targetId.value, position)
      case None => Aborted(visible)
      case Some(placed) => Moved(Renumber(placed, None))
  }

  /** addItem, as a function of the tree. */
  function AddSpec(items: seq<Node>, item: Node): seq<Node> {
    if item.parentId.None? then items + [item]
    else match Find(items, item.parentId.value)
      case Some(parent) =>
        if parent.Folder? then
          ReplaceFirst(items, item.parentId.value, parent.(children := parent.children + [item]))
        else items
      case None => items
  }

  /** updateItem, as a function of the tree. */
  function UpdateSpec(items: seq<Node>, id: string, u: Update): seq<Node> {
    match Find(items, id)
    case None => items
    case Some(n) => if Accepts(n, u) then ReplaceFirst(items, id, Merge(n, u)) else items
  }

  // ---------------------------------------------------------------------------
  // The helper walks, as the loops they are
  // ---------------------------------------------------------------------------

  /** findItemRecursive. */
  method FindItemRecursive(items: seq<Node>, id: string) returns (found: Option<Node>)
    ensures found == Find(items, id)
    decreases items
  {
    var i := 0;
    while i < |items|
      invariant 0 <= i <= |items|
      invariant Find(items, id) == Find(items[i..], id)
    {
      var item := items[i];
      assert items[i..][1..] == items[i + 1..];
      if item.id == id {
        return Some(item);
      }
      if item.Folder? {
        var inner := FindItemRecursive(item.children, id);
        if inner.Some? {
          return inner;
        }
      }
      i := i + 1;
    }
    return None;
  }

  /** `items.findIndex(item => item.id === id)`. */
  method FindIndex(items: seq<Node>, id: string) returns (index: int)
    ensures index == IndexOfId(items, id)
  {
    index := 0;
    while index < |items|
      invariant 0 <= index <= |items|
      invariant forall j :: 0 <= j < index ==> items[j].id != id
    {
      if items[index].id == id {
        return;
      }
      index := index + 1;
    }
    index := -1;
  }

  /** removeItemFromParent: the new array and whether an item was removed. */
  method RemoveItemFromParent(items: seq<Node>, id: string) returns (newItems: seq<Node>, removed: bool)
    ensures newItems == RemoveFirst(items, id).0
    ensures removed == RemoveFirst(items, id).1.Some?
    decreases items, 1
  {
    var index := FindIndex(items, id);
    if index != -1 {
      return items[..index] + items[index + 1..], true;
    }
    newItems, removed := RemoveFromFolders(items, id);
  }

  /** The loop of removeItemFromParent over the folders of a level, once the id is not at that level. */
  method RemoveFromFolders(items: seq<Node>, id: string) returns (newItems: seq<Node>, removed: bool)
    ensures newItems == RemoveInFolders(items, id).0
    ensures removed == RemoveInFolders(items, id).1.Some?
    decreases items, 0
  {
    var i := 0;
    while i < |items|
      invariant 0 <= i <= |items|
      invariant RemoveInFolders(items, id).0 == items[..i] + RemoveInFolders(items[i..], id).0
      invariant RemoveInFolders(items, id).1 == RemoveInFolders(items[i..], id).1
    {
      var item := items[i];
      if item.Folder? {
        var inner, done := RemoveItemFromParent(item.children, id);
        if done {
          RemovedInFolderAt(items, id, i);
          return items[..i] + [item.(children := inner)] + items[i + 1..], true;
        }
      }
      PassedFolderAt(items, id, i);
      i := i + 1;
    }
    assert items[..i] == items && items[i..] == [];
    return items, false;
  }

  /** The walk stops at the first folder at index `i` whose subtree holds the id. */
  lemma RemovedInFolderAt(items: seq<Node>, id: string, i: nat)
    requires i < |items| && items[i].Folder? && RemoveFirst(items[i].children, id).1.Some?
    requires RemoveInFolders(items, id).0 == items[..i] + RemoveInFolders(items[i..], id).0
    requires RemoveInFolders(items, id).1 == RemoveInFolders(items[i..], id).1
    ensures RemoveInFolders(items, id).0
            == items[..i] + [items[i].(children := RemoveFirst(items[i].children, id).0)] + items[i + 1..]
    ensures RemoveInFolders(items, id).1.Some?
  {
    RemoveInFoldersStep(items, id, i);
    SeqAssoc(items[..i], [items[i].(children := RemoveFirst(items[i].children, id).0)], items[i + 1..]);
  }

  /** The walk moves past index `i` when that item's subtree does not hold the id. */
  lemma PassedFolderAt(items: seq<Node>, id: string, i: nat)
    requires i < |items| && !(items[i].Folder? && RemoveFirst(items[i].children, id).1.Some?)
    requires RemoveInFolders(items, id).0 == items[..i] + RemoveInFolders(items[i..], id).0
    requires RemoveInFolders(items, id).1 == RemoveInFolders(items[i..], id).1
    ensures RemoveInFolders(items, id).0 == items[..i + 1] + RemoveInFolders(items[i + 1..], id).0
    ensures RemoveInFolders(items, id).1 == RemoveInFolders(items[i + 1..], id).1
  {
    RemoveInFoldersStep(items, id, i);
    assert items[..i + 1] == items[..i] + [items[i]];
    SeqAssoc(items[..i], [items[i]], RemoveInFolders(items[i + 1..], id).0);
  }

  lemma SeqAssoc<T>(a: seq<T>, b: seq<T>, c: seq<T>)
    ensures a + b + c == a + (b + c)
  {
  }

  /** One step of the walk through the folders of a level, at index `i`. */
  lemma RemoveInFoldersStep(items: seq<Node>, id: string, i: nat)
    requires i < |items|
    ensures var item := items[i];
            var inner := if item.Folder? then RemoveFirst(item.children, id) else ([], None);
            var rest := RemoveInFolders(items[i + 1..], id);
            if inner.1.Some? && item.Folder? then
              RemoveInFolders(items[i..], id) == ([item.(children := inner.0)] + items[i + 1..], inner.1)
            else
              RemoveInFolders(items[i..], id) == ([item] + rest.0, rest.1)
  {
    assert items[i..][1..] == items[i + 1..];
    assert items[i..][0] == items[i];
  }

  /** updatePositions. */
  method UpdatePositions(items: seq<Node>, parentId: Option<string>) returns (r: seq<Node>)
    ensures r == Renumber(items, parentId)
    decreases items
  {
    r := [];
    var i := 0;
    while i < |items|
      invariant 0 <= i <= |items| && |r| == i
      invariant forall j :: 0 <= j < i ==> r[j] == Placed(items[j], j, parentId)
    {
      var item := items[i];
      var updated: Node;
      match item {
        case Folder(id, name, _, _, isExpanded, children) =>
          var renumbered := UpdatePositions(children, Some(id));
          updated := Folder(id, name, i, parentId, isExpanded, renumbered);
        case Bookmark(id, name, _, _, url, icon, description, tags) =>
          updated := Bookmark(id, name, i, parentId, url, icon, description, tags);
      }
      assert updated == Placed(item, i, parentId);
      r := r + [updated];
      i := i + 1;
    }
    RenumberFromAt(items, parentId, 0);
  }

  /** Item `i` of a renumbered list is the `i`-th item placed at `start + i`. */
  lemma {:induction false} RenumberFromAt(items: seq<Node>, parentId: Option<string>, start: int)
    ensures forall i :: 0 <= i < |items| ==> RenumberFrom(items, parentId, start)[i] == Placed(items[i], start + i, parentId)
    decreases items
  {
    if items != [] {
      RenumberFromAt(items[1..], parentId, start + 1);
    }
  }

  /**
   * The `else` branch of moveItem once the source is detached: look up the
   * target and insert the source into it or beside it; None where the
   * source returns the old state.
   */
  method PlaceSource(detached: seq<Node>, source: Node, targetId: string, position: DropPosition)
    returns (placed: Option<seq<Node>>)
    ensures placed == Placement(detached, source, targetId, position)
  {
    var targetItem := FindItemRecursive(detached, targetId);
    if targetItem.None? {
      return None;
    }
    var target := targetItem.value;
    if position == Inside && target.Folder? {
      return Some(ReplaceFirst(detached, targetId,
        target.(children := target.children + [source.WithParent(Some(target.id))])));
    }
    if !Truthy(target.parentId) {
      var targetIndex := FindIndex(detached, targetId);
      var index := if position == Before then targetIndex else targetIndex + 1;
      return Some(SpliceInsert(detached, index, source.WithParent(target.parentId)));
    }
    placed := PlaceInParent(detached, source, target, targetId, position);
  }

  /** PlaceSource for a target inside a folder: splice the source in beside it, in its parent's children. */
  method PlaceInParent(detached: seq<Node>, source: Node, target: Node, targetId: string, position: DropPosition)
    returns (placed: Option<seq<Node>>)
    requires Find(detached, targetId) == Some(target) && !(position == Inside && target.Folder?)
    requires Truthy(target.parentId)
    ensures placed == Placement(detached, source, targetId, position)
  {
    var parentItem := FindItemRecursive(detached, target.parentId.value);
    PlacementInParent(detached, source, target, targetId, position);
    if parentItem.None? || parentItem.value.Bookmark? {
      return None;
    }
    var parent := parentItem.value;
    var targetIndex := FindIndex(parent.children, targetId);
    var index := if position == Before then targetIndex else targetIndex + 1;
    return Some(ReplaceFirst(detached, target.parentId.value,
      parent.(children := SpliceInsert(parent.children, index, source.WithParent(target.parentId)))));
  }

  /** Placement beside a target that has a parent, spelled out. */
  lemma PlacementInParent(detached: seq<Node>, source: Node, target: Node, targetId: string, position: DropPosition)
    requires Find(detached, targetId) == Some(target) && !(position == Inside && target.Folder?)
    requires Truthy(target.parentId)
    ensures var parent := Find(detached, target.parentId.value);
            Placement(detached, source, targetId, position)
            == if parent.None? || parent.value.Bookmark? then None
               else
                 var k := IndexOfId(parent.value.children, targetId);
                 Some(ReplaceFirst(detached, target.parentId.value,
                   parent.value.(children := SpliceInsert(parent.value.children, if position == Before then k else k + 1,
                                                          source.WithParent(target.parentId)))))
  {
  }

  /** The body of moveItem's state update: the outcome for the current tree. */
  method MoveTree(items: seq<Node>, sourceId: string, targetId: Option<string>, position: DropPosition)
    returns (outcome: MoveOutcome)
    ensures outcome == MoveSpec(items, sourceId, targetId, position)
  {
    var sourceItem := FindItemRecursive(items, sourceId);
    if sourceItem.None? {
      return SourceMissing;
    }
    var rootIndex := FindIndex(items, sourceId);
    var newTree, _ := RemoveItemFromParent(items, sourceId);
    // An abandoned move still shows the detach when it happened in a shared nested array.
    var visible := if rootIndex >= 0 then items else newTree;
    outcome := Relocate(newTree, visible, sourceItem.value, targetId, position);
  }

  /** moveItem after the detach. */
  method Relocate(detached: seq<Node>, visible: seq<Node>, source: Node, targetId: Option<string>,
                  position: DropPosition) returns (outcome: MoveOutcome)
    ensures outcome == Relocation(detached, visible, source, targetId, position)
  {
    if !Truthy(targetId) {
      var index := GetInsertIndex(position, 0);
      var renumbered := UpdatePositions(SpliceInsert(detached, index, source.WithParent(None)), None);
      return Moved(renumbered);
    }
    var placed := PlaceSource(detached, source, targetId.value, position);
    if placed.None? {
      return Aborted(visible);
    }
    var renumbered := UpdatePositions(placed.value, None);
    return Moved(renumbered);
  }

  // ---------------------------------------------------------------------------
  // The store
  // ---------------------------------------------------------------------------

  /** useBookmarkTreeStore: the tree and the drag state. */
  class BookmarkTreeStore {
    var items: seq<Node>
    var dragState: DragState

    constructor ()
      ensures items == [] && dragState == InitialDragState
    {
      items := [];
      dragState := InitialDragState;
    }

    /** setTree. */
    method SetTree(newItems: seq<Node>)
      modifies this
      ensures items == newItems && dragState == old(dragState)
    {
      items := newItems;
    }

    /** moveItem. */
    method MoveItem(sourceId: string, targetId: Option<string>, position: DropPosition)
      modifies this
      ensures MoveSpec(old(items), sourceId, targetId, position).SourceMissing? ==>
                items == old(items) && dragState == old(dragState)
      ensures MoveSpec(old(items), sourceId, targetId, position).Aborted? ==>
                items == MoveSpec(old(items), sourceId, targetId, position).visible
                && dragState == old(dragState)
      ensures MoveSpec(old(items), sourceId, targetId, position).Moved? ==>
                items == MoveSpec(old(items), sourceId, targetId, position).tree
                && dragState == InitialDragState
    {
      var outcome := MoveTree(items, sourceId, targetId, position);
      match outcome {
        case SourceMissing =>
        case Aborted(visible) =>
          items := visible;
        case Moved(tree) =>
          items := tree;
          dragState := InitialDragState;
      }
    }

    /** addItem. */
    method AddItem(item: Node)
      modifies this
      ensures items == AddSpec(old(items), item) && dragState == old(dragState)
    {
      if item.parentId.None? {
        items := items + [item];
        return;
      }
      var parentItem := FindItemRecursive(items, item.parentId.value);
      if parentItem.Some? && parentItem.value.Folder? {
        var parent := parentItem.value;
        items := ReplaceFirst(items, item.parentId.value, parent.(children := parent.children + [item]));
      }
    }

    /** updateItem: applied only when the update's `type` matches the item or is absent. */
    method UpdateItem(id: string, u: Update)
      modifies this
      ensures items == UpdateSpec(old(items), id, u) && dragState == old(dragState)
    {
      var found := FindItemRecursive(items, id);
      if found.None? {
        return;
      }
      var item := found.value;
      if (item.Folder? && u.tag == Some(FolderKind))
         || (!item.Folder? && u.tag == Some(BookmarkKind))
         || u.tag.None?
      {
        items := ReplaceFirst(items, id, Merge(item, u));
      }
    }

    /** removeItem. */
    method RemoveItem(id: string)
      modifies this
      ensures items == RemoveFirst(old(items), id).0 && dragState == old(dragState)
    {
      var newTree, _ := RemoveItemFromParent(items, id);
      items := newTree;
    }

    /** setDragState. */
    method SetDragState(u: DragStateUpdate)
      modifies this
      ensures dragState == ApplyDragUpdate(old(dragState), u) && items == old(items)
    {
      dragState := ApplyDragUpdate(dragState, u);
    }

    /** resetDragState. */
    method ResetDragState()
      modifies this
      ensures dragState == InitialDragState && items == old(items)
    {
      dragState := InitialDragState;
    }
  }
}
