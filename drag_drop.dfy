/**
 * The drag-and-drop hook of the bookmark tree
 * (features/bookmarks/hooks/useTreeDragDrop.ts): four event handlers that
 * update the drag state of the tree hook and move items in it.
 *
 * The expand of a collapsed folder target, which `handleDragEnd` defers with a
 * zero-delay timer, is modelled as the step that follows the drop.
 */
module DragDrop {
  import opened Wrappers
  import opened TreeTypes
  import opened TreeStore
  import opened TreeHook

  /** `active.data.current` of a drag start: the item's kind and, for a tree item, the item. */
  datatype DragData = DragData(kind: Kind, treeItem: Option<Node>)

  /** `over.data.current` of a drop target; only its `type` is read. */
  datatype DropTargetData = DropTargetData(kind: Option<Kind>)

  /** `over`: the target's id and its data, when the target carries any. */
  datatype Over = Over(id: string, data: Option<DropTargetData>)

  /** The drop position for a target: into a folder, after anything else. */
  function DropPositionFor(kind: Option<Kind>): (r: DropPosition)
    ensures r == Inside <==> kind == Some(FolderKind)
    ensures r == Inside || r == After
  {
    if kind == Some(FolderKind) then Inside else After
  }

  /** `setDragState({ isDragging: false })`. */
  const StopDragging := NoDragChange.(isDragging := Some(false))

  /** The update that expands a folder target: `{ type: "folder", isExpanded: true }`. */
  const ExpandFolder := Update(Some(FolderKind), None, None, None, Some(true), None, None, None, None)

  /** The drag-state update of a drag start. */
  function StartUpdate(active: string, data: DragData): (u: DragStateUpdate)
    ensures ApplyDragUpdate(InitialDragState, u).isDragging
  {
    NoDragChange.(isDragging := Some(true), sourceId := Some(Some(active)), sourceType := Some(Some(data.kind)),
                  parentId := Some(if data.treeItem.Some? then data.treeItem.value.parentId else None))
  }

  /** The drag-state update of a drag over a target. */
  function OverUpdate(overId: Option<string>, kind: Kind): DragStateUpdate {
    NoDragChange.(targetId := Some(overId), position := Some(DropPositionFor(Some(kind))))
  }

  /** The tree and drag state once moveItem has run. */
  function AfterMove(items: seq<Node>, s: DragState, outcome: MoveOutcome): (seq<Node>, DragState) {
    match outcome
    case SourceMissing => (items, s)
    case Aborted(visible) => (visible, s)
    case Moved(tree) => (tree, InitialDragState)
  }

  /** The target is a collapsed folder at the top level of the tree. */
  predicate CollapsedTopLevelFolder(items: seq<Node>, id: string) {
    var t := FindById(items, id);
    t.Some? && t.value.Folder? && !t.value.isExpanded
  }

  /** handleDragEnd, as a function of the tree and the drag state. */
  function DragEndSpec(items: seq<Node>, s: DragState, active: string, over: Option<Over>): (seq<Node>, DragState) {
    if over.None? || over.value.data.None? then (items, ApplyDragUpdate(s, StopDragging))
    else
      var target := over.value.id;
      var position := DropPositionFor(over.value.data.value.kind);
      var (moved, s') := AfterMove(items, s, MoveSpec(items, active, Some(target), position));
      var expand := position == Inside && CollapsedTopLevelFolder(items, target);
      (if expand then HookUpdateSpec(moved, target, ExpandFolder) else moved, ApplyDragUpdate(s', StopDragging))
  }

  /** A drop with no target, or a target without data, only stops the drag. */
  lemma DropWithoutTargetData(items: seq<Node>, s: DragState, active: string, over: Option<Over>)
    requires over.None? || over.value.data.None?
    ensures DragEndSpec(items, s, active, over).0 == items
    ensures DragEndSpec(items, s, active, over).1 == s.(isDragging := false)
  {
  }

  /** Every drop ends the drag. */
  lemma DropEndsDrag(items: seq<Node>, s: DragState, active: string, over: Option<Over>)
    ensures !DragEndSpec(items, s, active, over).1.isDragging
  {
  }

  /**
   * A drop onto a target with data is exactly one moveItem, into a folder
   * target and after any other target.
   */
  lemma DropIsOneMove(items: seq<Node>, s: DragState, active: string, o: Over)
    requires o.data.Some?
    requires !(o.data.value.kind == Some(FolderKind) && CollapsedTopLevelFolder(items, o.id))
    ensures var position := if o.data.value.kind == Some(FolderKind) then Inside else After;
            DragEndSpec(items, s, active, Some(o)).0 == AfterMove(items, s, MoveSpec(items, active, Some(o.id), position)).0
  {
  }

  /**
   * A drop onto a collapsed top-level folder leaves that folder expanded,
   * wherever it is once the move is done.
   */
  lemma DropExpandsCollapsedFolder(items: seq<Node>, s: DragState, active: string, o: Over)
    requires o.data.Some? && o.data.value.kind == Some(FolderKind) && CollapsedTopLevelFolder(items, o.id)
    requires Find(AfterMove(items, s, MoveSpec(items, active, Some(o.id), Inside)).0, o.id).Some?
    ensures var t := Find(DragEndSpec(items, s, active, Some(o)).0, o.id);
            t.Some? && t.value.Folder? && t.value.isExpanded
  {
    var moved := AfterMove(items, s, MoveSpec(items, active, Some(o.id), Inside)).0;
    HookUpdateLands(moved, o.id, ExpandFolder);
  }

  /** A drag over a target sets the target and the drop position and nothing else. */
  lemma DragOverSetsTargetOnly(s: DragState, overId: Option<string>, kind: Kind)
    ensures ApplyDragUpdate(s, OverUpdate(overId, kind))
            == s.(targetId := overId, position := if kind == FolderKind then Inside else After)
  {
  }

  /** A drag start with data records the source and its parent and starts the drag. */
  lemma DragStartRecordsSource(s: DragState, active: string, data: DragData)
    ensures var r := ApplyDragUpdate(s, StartUpdate(active, data));
            && r.isDragging && r.sourceId == Some(active) && r.sourceType == Some(data.kind)
            && (data.treeItem.None? ==> r.parentId == None)
            && (data.treeItem.Some? ==> r.parentId == data.treeItem.value.parentId)
            && r.targetId == s.targetId && r.position == s.position
  {
  }

  class TreeDragDrop {
    /** The tree hook the handlers read and update. */
    const tree: BookmarkTreeHook

    constructor (tree: BookmarkTreeHook)
      ensures this.tree == tree
    {
      this.tree := tree;
    }

    /** handleDragStart: nothing happens without drag data. */
    method HandleDragStart(active: string, data: Option<DragData>)
      modifies tree
      ensures tree.items == old(tree.items)
      ensures data.None? ==> tree.dragState == old(tree.dragState)
      ensures data.Some? ==> tree.dragState == ApplyDragUpdate(old(tree.dragState), StartUpdate(active, data.value))
    {
      if data.None? {
        return;
      }
      tree.SetDragState(StartUpdate(active, data.value));
    }

    /** handleDragEnd. */
    method HandleDragEnd(active: string, over: Option<Over>)
      modifies tree
      ensures (tree.items, tree.dragState) == DragEndSpec(old(tree.items), old(tree.dragState), active, over)
    {
      if over.None? {
        tree.SetDragState(StopDragging);
        return;
      }
      var targetId := over.value.id;
      if over.value.data.None? {
        tree.SetDragState(StopDragging);
        return;
      }
      var position := DropPositionFor(over.value.data.value.kind);
      if position == Inside {
        var targetItem := FindById(tree.items, targetId);
        if targetItem.Some? && targetItem.value.Folder? && !targetItem.value.isExpanded {
          tree.MoveItem(active, Some(targetId), position);
          tree.SetDragState(StopDragging);
          tree.UpdateItem(targetId, ExpandFolder);
          return;
        }
      }
      tree.MoveItem(active, Some(targetId), position);
      tree.SetDragState(StopDragging);
    }

    /** handleDragOver. */
    method HandleDragOver(overId: Option<string>, kind: Kind)
      modifies tree
      ensures tree.dragState == ApplyDragUpdate(old(tree.dragState), OverUpdate(overId, kind))
      ensures tree.items == old(tree.items)
    {
      tree.SetDragState(OverUpdate(overId, kind));
    }

    /** handleDragCancel. */
    method HandleDragCancel()
      modifies tree
      ensures tree.dragState == old(tree.dragState).(isDragging := false)
      ensures tree.items == old(tree.items)
    {
      tree.SetDragState(StopDragging);
    }
  }
}
