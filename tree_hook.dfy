/**
 * The bookmark tree hook (features/bookmarks/hooks/useBookmarkTree.ts): the
 * same tree operations as the store, built from the same helper walks, except
 * that updateItem merges an update whatever its `type` tag says.
 */
module TreeHook {
  import opened Wrappers
  import opened TreeTypes
  import opened TreeStore
  import TreeLemmas

  /**
   * `Object.assign(item, updates)` without a tag check. An update whose tag
   * names the item's own variant, or no tag, merges as in the store; a tag
   * naming the other variant turns the item into that variant.
   */
  function Assign(n: Node, u: Update): (r: Node)
    ensures r.id == n.id
    ensures r.Tag() == u.tag.GetOr(n.Tag())
    ensures r.name == u.name.GetOr(n.name)
    ensures r.position == u.position.GetOr(n.position)
    ensures r.parentId == u.parentId.GetOr(n.parentId)
    ensures Accepts(n, u) ==> r == Merge(n, u)
    ensures !Accepts(n, u) && r.Bookmark? ==>
              r.url == u.url.GetOr("") && r.icon == u.icon && r.description == u.description && r.tags == u.tags
    ensures !Accepts(n, u) && r.Folder? ==> r.children == [] && r.isExpanded == u.isExpanded.GetOr(false)
  {
    if Accepts(n, u) then Merge(n, u)
    else if u.tag == Some(BookmarkKind) then
      Bookmark(n.id, u.name.GetOr(n.name), u.position.GetOr(n.position), u.parentId.GetOr(n.parentId),
               u.url.GetOr(""), u.icon, u.description, u.tags)
    else
      Folder(n.id, u.name.GetOr(n.name), u.position.GetOr(n.position), u.parentId.GetOr(n.parentId),
             u.isExpanded.GetOr(false), [])
  }

  /** updateItem of the hook, as a function of the tree. */
  function HookUpdateSpec(items: seq<Node>, id: string, u: Update): seq<Node> {
    match Find(items, id)
    case None => items
    case Some(n) => ReplaceFirst(items, id, Assign(n, u))
  }

  /**
   * The hook and the store agree on every update the store accepts; on an
   * unknown id both leave the tree as it is.
   */
  lemma HookUpdateAgreesWithStore(items: seq<Node>, id: string, u: Update)
    requires Find(items, id).None? || Accepts(Find(items, id).value, u)
    ensures HookUpdateSpec(items, id, u) == UpdateSpec(items, id, u)
    ensures Find(items, id).None? ==> HookUpdateSpec(items, id, u) == items
  {
  }

  /**
   * The hook's update always lands: the item found under `id` afterwards is the
   * assigned item, carrying the update's tag when it has one.
   */
  lemma HookUpdateLands(items: seq<Node>, id: string, u: Update)
    requires Find(items, id).Some?
    ensures Find(HookUpdateSpec(items, id, u), id) == Some(Assign(Find(items, id).value, u))
    ensures u.tag.Some? ==> Find(HookUpdateSpec(items, id, u), id).value.Tag() == u.tag.value
  {
    TreeLemmas.FindSpec(items, id);
    TreeLemmas.FindAfterReplace(items, id, Assign(Find(items, id).value, u));
  }

  /** A mismatched tag that the store would refuse still changes the hook's tree. */
  lemma HookAppliesRefusedUpdate(items: seq<Node>, id: string, u: Update)
    requires Find(items, id).Some? && !Accepts(Find(items, id).value, u)
    ensures UpdateSpec(items, id, u) == items
    ensures HookUpdateSpec(items, id, u) != items
  {
    HookUpdateLands(items, id, u);
    var n := Find(items, id).value;
    assert Assign(n, u).Tag() != n.Tag();
    assert Find(HookUpdateSpec(items, id, u), id) != Find(items, id);
  }

  class BookmarkTreeHook {
    var items: seq<Node>
    var dragState: DragState

    constructor ()
      ensures items == [] && dragState == InitialDragState
    {
      items := [];
      dragState := InitialDragState;
    }

    /** setTree. */
    method SetTree(newItems: seq<Node>)
      modifies this
      ensures items == newItems && dragState == old(dragState)
    {
      items := newItems;
    }

    /** moveItem: the same algorithm as the store's. */
    method MoveItem(sourceId: string, targetId: Option<string>, position: DropPosition)
      modifies this
      ensures MoveSpec(old(items), sourceId, targetId, position).SourceMissing? ==>
                items == old(items) && dragState == old(dragState)
      ensures MoveSpec(old(items), sourceId, targetId, position).Aborted? ==>
                items == MoveSpec(old(items), sourceId, targetId, position).visible
                && dragState == old(dragState)
      ensures MoveSpec(old(items), sourceId, targetId, position).Moved? ==>
                items == MoveSpec(old(items), sourceId, targetId, position).tree
                && dragState == InitialDragState
    {
      var outcome := MoveTree(items, sourceId, targetId, position);
      match outcome {
        case SourceMissing =>
        case Aborted(visible) =>
          items := visible;
        case Moved(tree) =>
          items := tree;
          dragState := InitialDragState;
      }
    }

    /** addItem. */
    method AddItem(item: Node)
      modifies this
      ensures items == AddSpec(old(items), item) && dragState == old(dragState)
    {
      if item.parentId.None? {
        items := items + [item];
        return;
      }
      var parentItem := FindItemRecursive(items, item.parentId.value);
      if parentItem.Some? && parentItem.value.Folder? {
        var parent := parentItem.value;
        items := ReplaceFirst(items, item.parentId.value, parent.(children := parent.children + [item]));
      }
    }

    /** updateItem: merged into the found item with no tag check. */
    method UpdateItem(id: string, u: Update)
      modifies this
      ensures items == HookUpdateSpec(old(items), id, u) && dragState == old(dragState)
    {
      var found := FindItemRecursive(items, id);
      if found.None? {
        return;
      }
      items := ReplaceFirst(items, id, Assign(found.value, u));
    }

    /** removeItem. */
    method RemoveItem(id: string)
      modifies this
      ensures items == RemoveFirst(old(items), id).0 && dragState == old(dragState)
    {
      var newTree, _ := RemoveItemFromParent(items, id);
      items := newTree;
    }

    /** setDragState. */
    method SetDragState(u: DragStateUpdate)
      modifies this
      ensures dragState == ApplyDragUpdate(old(dragState), u) && items == old(items)
    {
      dragState := ApplyDragUpdate(dragState, u);
    }

    /** resetDragState. */
    method ResetDragState()
      modifies this
      ensures dragState == InitialDragState && items == old(items)
    {
      dragState := InitialDragState;
    }
  }
}
