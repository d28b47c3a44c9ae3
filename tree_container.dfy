/**
 * The bookmark tree container (app/_components/bookmark-tree/tree-container.tsx):
 * the checks a drop must pass before the store moves anything, the drag
 * handlers that gate the move, and the "new folder" button.
 *
 * The container's item lookup walks `children` depth-first exactly as the
 * store's does, so it is the store's `Find`.
 */
module Container {
  import opened Wrappers
  import opened TreeTypes
  import opened TreeStore
  import TreeLemmas

  /** The deepest nesting a drop may produce. */
  const MAX_DEPTH: nat := 5

  // ---------------------------------------------------------------------------
  // Walking up the parentId links
  // ---------------------------------------------------------------------------

  /**
   * Following truthy parentId links upward from `id` meets at most `fuel`
   * items before a link is falsy or does not resolve. Both recursive
   * checks below would otherwise recurse for ever.
   */
  ghost predicate LinksEnd(tree: seq<Node>, id: string, fuel: nat)
    decreases fuel
  {
    match Find(tree, id)
    case None => true
    case Some(item) => fuel > 0 && (!Truthy(item.parentId) || LinksEnd(tree, item.parentId.value, fuel - 1))
  }

  /**
   * Reference definition: the ids of the items met on the way up from `id`,
   * `id` first, for as long as each link resolves.
   */
  ghost function Ancestry(tree: seq<Node>, id: string, fuel: nat): seq<string>
    requires LinksEnd(tree, id, fuel)
    decreases fuel
  {
    match Find(tree, id)
    case None => []
    case Some(item) =>
      [item.id] + (if Truthy(item.parentId) then Ancestry(tree, item.parentId.value, fuel - 1) else [])
  }

  /** isCircular: `itemId` is `targetId` or one of the items above it. */
  function IsCircular(tree: seq<Node>, itemId: string, targetId: string, ghost fuel: nat): bool
    requires LinksEnd(tree, targetId, fuel)
    decreases fuel
  {
    match Find(tree, targetId)
    case None => false
    case Some(item) =>
      if item.id == itemId then true
      else if Truthy(item.parentId) then IsCircular(tree, itemId, item.parentId.value, fuel - 1)
      else false
  }

  /** getDepth: a falsy id is depth 0, an unknown id too, a found item one more than its parent. */
  function GetDepth(tree: seq<Node>, itemId: Option<string>, ghost fuel: nat): nat
    requires Truthy(itemId) ==> LinksEnd(tree, itemId.value, fuel)
    decreases fuel
  {
    if !Truthy(itemId) then 0
    else match Find(tree, itemId.value)
      case None => 0
      case Some(item) => GetDepth(tree, item.parentId, fuel - 1) + 1
  }

  /** isCircular asks exactly whether the item lies on the target's way up. */
  lemma {:induction false} CircularIffAncestor(tree: seq<Node>, itemId: string, targetId: string, fuel: nat)
    requires LinksEnd(tree, targetId, fuel)
    ensures IsCircular(tree, itemId, targetId, fuel) <==> itemId in Ancestry(tree, targetId, fuel)
    decreases fuel
  {
    match Find(tree, targetId)
    case None =>
    case Some(item) =>
      if item.id != itemId && Truthy(item.parentId) {
        CircularIffAncestor(tree, itemId, item.parentId.value, fuel - 1);
      }
  }

  /** getDepth counts the items on the way up, the item itself included. */
  lemma {:induction false} DepthIsAncestryLength(tree: seq<Node>, id: string, fuel: nat)
    requires LinksEnd(tree, id, fuel) && id != ""
    ensures GetDepth(tree, Some(id), fuel) == |Ancestry(tree, id, fuel)|
    decreases fuel
  {
    match Find(tree, id)
    case None =>
    case Some(item) =>
      if Truthy(item.parentId) {
        DepthIsAncestryLength(tree, item.parentId.value, fuel - 1);
      }
  }

  /**
   * The way up, spelled out: it starts at `id` exactly when `id` is in the
   * tree, every entry is an id of the tree, and each entry's item links to
   * the next one.
   */
  lemma AncestryWalk(tree: seq<Node>, id: string, fuel: nat)
    requires LinksEnd(tree, id, fuel)
    ensures var a := Ancestry(tree, id, fuel);
            && (|a| > 0 <==> id in Ids(tree))
            && (|a| > 0 ==> a[0] == id)
            && (forall i :: 0 <= i < |a| ==> a[i] in Ids(tree))
            && (forall i :: 0 <= i < |a| - 1 ==> Find(tree, a[i]).Some? && Find(tree, a[i]).value.parentId == Some(a[i + 1]))
  {
    AncestryIds(tree, id, fuel);
    AncestryLinks(tree, id, fuel);
  }

  /** One step up. */
  lemma AncestryStep(tree: seq<Node>, id: string, fuel: nat, item: Node)
    requires LinksEnd(tree, id, fuel) && Find(tree, id) == Some(item)
    ensures fuel > 0 && item.id == id
    ensures Truthy(item.parentId) ==> LinksEnd(tree, item.parentId.value, fuel - 1)
    ensures Ancestry(tree, id, fuel)
            == [id] + (if Truthy(item.parentId) then Ancestry(tree, item.parentId.value, fuel - 1) else [])
  {
    TreeLemmas.FoundIdMatches(tree, id, item);
  }

  lemma {:induction false} AncestryIds(tree: seq<Node>, id: string, fuel: nat)
    requires LinksEnd(tree, id, fuel)
    ensures var a := Ancestry(tree, id, fuel);
            && (|a| > 0 <==> id in Ids(tree))
            && (|a| > 0 ==> a[0] == id)
            && (forall i :: 0 <= i < |a| ==> a[i] in Ids(tree))
    decreases fuel
  {
    TreeLemmas.FindSpec(tree, id);
    match Find(tree, id)
    case None =>
    case Some(item) =>
      AncestryStep(tree, id, fuel, item);
      if Truthy(item.parentId) {
        AncestryIds(tree, item.parentId.value, fuel - 1);
      }
  }

  lemma {:induction false} AncestryLinks(tree: seq<Node>, id: string, fuel: nat)
    requires LinksEnd(tree, id, fuel)
    ensures var a := Ancestry(tree, id, fuel);
            forall i :: 0 <= i < |a| - 1 ==> Find(tree, a[i]).Some? && Find(tree, a[i]).value.parentId == Some(a[i + 1])
    decreases fuel
  {
    match Find(tree, id)
    case None =>
    case Some(item) =>
      AncestryStep(tree, id, fuel, item);
      if Truthy(item.parentId) {
        var p := item.parentId.value;
        AncestryLinks(tree, p, fuel - 1);
        var rest := Ancestry(tree, p, fuel - 1);
        var a := Ancestry(tree, id, fuel);
        if |rest| > 0 {
          assert rest[0] == p by { AncestryIds(tree, p, fuel - 1); }
        }
        forall i | 0 <= i < |a| - 1
          ensures Find(tree, a[i]).Some? && Find(tree, a[i]).value.parentId == Some(a[i + 1])
        {
          if i > 0 {
            assert a[i] == rest[i - 1] && a[i + 1] == rest[i];
          }
        }
      }
  }

  // ---------------------------------------------------------------------------
  // validateMove
  // ---------------------------------------------------------------------------

  /** What validateMove decides; each refusal raises its own toast. */
  datatype MoveCheck = Allowed | CircularRef | TooDeep

  /** validateMove: the circular check first, then the depth check. */
  function ValidateMove(tree: seq<Node>, sourceId: string, destinationId: Option<string>, ghost fuel: nat): (r: MoveCheck)
    requires Truthy(destinationId) ==> LinksEnd(tree, destinationId.value, fuel)
    ensures !Truthy(destinationId) ==> r == Allowed
    ensures Truthy(destinationId) && IsCircular(tree, sourceId, destinationId.value, fuel) ==> r == CircularRef
    ensures Truthy(destinationId) && !IsCircular(tree, sourceId, destinationId.value, fuel) ==>
              (r == TooDeep <==> GetDepth(tree, destinationId, fuel) + 1 > MAX_DEPTH)
  {
    if !Truthy(destinationId) then Allowed
    else if IsCircular(tree, sourceId, destinationId.value, fuel) then CircularRef
    else if GetDepth(tree, destinationId, fuel) + 1 > MAX_DEPTH then TooDeep
    else Allowed
  }

  /**
   * A drop onto a destination is allowed exactly when the source is not the
   * destination or above it, and the destination has at most MAX_DEPTH - 1
   * items on its way up.
   */
  lemma ValidateMoveMeaning(tree: seq<Node>, sourceId: string, destinationId: string, fuel: nat)
    requires destinationId != "" && LinksEnd(tree, destinationId, fuel)
    ensures var a := Ancestry(tree, destinationId, fuel);
            ValidateMove(tree, sourceId, Some(destinationId), fuel) == Allowed
            <==> sourceId !in a && |a| + 1 <= MAX_DEPTH
    ensures ValidateMove(tree, sourceId, Some(destinationId), fuel) == CircularRef
            <==> sourceId in Ancestry(tree, destinationId, fuel)
  {
    CircularIffAncestor(tree, sourceId, destinationId, fuel);
    DepthIsAncestryLength(tree, destinationId, fuel);
  }

  /** Dropping onto the dragged item itself is always refused as circular. */
  lemma DropOntoSelfIsCircular(tree: seq<Node>, id: string, fuel: nat)
    requires id in Ids(tree) && id != "" && LinksEnd(tree, id, fuel)
    ensures ValidateMove(tree, id, Some(id), fuel) == CircularRef
  {
    AncestryWalk(tree, id, fuel);
    ValidateMoveMeaning(tree, id, id, fuel);
  }

  /** In a renumbered tree with unique ids every top-level item is at depth 1. */
  lemma TopLevelDepth(tree: seq<Node>, k: int, fuel: nat)
    requires UniqueIds(tree) && Positioned(tree, None) && 0 <= k < |tree|
    requires tree[k].id != "" && LinksEnd(tree, tree[k].id, fuel)
    ensures GetDepth(tree, Some(tree[k].id), fuel) == 1
  {
    TreeLemmas.NodesTop(tree, k);
    FoundItself(tree, tree[k]);
  }

  /** In a renumbered tree with unique ids a child sits one level below its folder. */
  lemma ChildDepth(tree: seq<Node>, f: Node, c: Node, fuel: nat)
    requires UniqueIds(tree) && f in Nodes(tree) && f.Folder? && c in f.children
    requires Positioned(f.children, Some(f.id)) && f.id != "" && c.id != ""
    requires LinksEnd(tree, c.id, fuel)
    ensures fuel > 0 && LinksEnd(tree, f.id, fuel - 1)
    ensures GetDepth(tree, Some(c.id), fuel) == GetDepth(tree, Some(f.id), fuel - 1) + 1
  {
    FoundItself(tree, f);
    var k :| 0 <= k < |f.children| && f.children[k] == c;
    TreeLemmas.NodesTop(f.children, k);
    TreeLemmas.NodesNested(tree, f, c);
    FoundItself(tree, c);
  }

  /** With unique ids, looking up an item's own id finds that item. */
  lemma FoundItself(tree: seq<Node>, n: Node)
    requires UniqueIds(tree) && n in Nodes(tree)
    ensures Find(tree, n.id) == Some(n)
  {
    TreeLemmas.IdsArePreorder(tree);
    var ns := Nodes(tree);
    var i :| 0 <= i < |ns| && ns[i] == n;
    assert Ids(tree)[i] == n.id;
    TreeLemmas.FindSpec(tree, n.id);
    TreeLemmas.UniqueItem(tree, n, Find(tree, n.id).value);
  }

  // ---------------------------------------------------------------------------
  // The container
  // ---------------------------------------------------------------------------

  class TreeContainer {
    /** The id of the item being dragged, shown in the drag overlay. */
    var activeId: Option<string>
    /** The tree store the container reads and moves items in. */
    const store: BookmarkTreeStore

    constructor (store: BookmarkTreeStore)
      ensures this.store == store && activeId == None
    {
      this.store := store;
      activeId := None;
    }

    /** handleDragStart. */
    method HandleDragStart(id: string)
      modifies this
      ensures activeId == Some(id)
    {
      activeId := Some(id);
    }

    /**
     * handleDragEnd: a drop onto another item moves the dragged item after it
     * (the sortable index handed over as the position is never a named drop
     * position), but only when validateMove allows it; a refused drop returns
     * before the active id is cleared.
     */
    method HandleDragEnd(active: string, over: Option<string>, ghost fuel: nat) returns (moved: bool)
      requires over.Some? && Truthy(over) ==> LinksEnd(store.items, over.value, fuel)
      modifies this, store
      ensures moved <==> over.Some? && active != over.value
                         && ValidateMove(old(store.items), active, over, fuel) == Allowed
      ensures !moved ==> store.items == old(store.items) && store.dragState == old(store.dragState)
      ensures moved ==> var outcome := MoveSpec(old(store.items), active, over, Unset);
                        && (outcome.SourceMissing? ==> store.items == old(store.items))
                        && (outcome.Aborted? ==> store.items == outcome.visible)
                        && (outcome.Moved? ==> store.items == outcome.tree && store.dragState == InitialDragState)
      ensures over.Some? && active != over.value && !moved ==> activeId == old(activeId)
      ensures !(over.Some? && active != over.value && !moved) ==> activeId == None
    {
      moved := false;
      if over.Some? && active != over.value {
        if ValidateMove(store.items, active, over, fuel) != Allowed {
          return;
        }
        store.MoveItem(active, over, Unset);
        moved := true;
      }
      activeId := None;
    }

    /** handleCreateFolder: a new, expanded, empty top-level folder at the end. */
    method HandleCreateFolder(freshId: string, name: string)
      modifies store
      ensures store.items == old(store.items) + [Folder(freshId, name, |old(store.items)|, None, true, [])]
      ensures store.dragState == old(store.dragState)
    {
      store.AddItem(Folder(freshId, name, |store.items|, None, true, []));
    }
  }
}
